# Protocol engines of the CoAP client firmware

This project models the protocol engines and state machines of a cellular CoAP client and proves what
they are there for: stored measurements survive a reboot, a firmware image is assembled without gap,
repeat or mixture, a request ends, a forecast never divides by zero.

Every part has the same shape. A value model (`RingLog`, `UpdateSteps`, `XmodemSteps`, `RequestSteps`, ...)
gives the meaning of one step as a function. The main results are lemmas about all runs of that function.
A class or method in the form of the source (static variables as fields, the loops of the source) is proved
equal to the function, so that the results hold for it.

| part | modules |
|---|---|
| Ring log on flash | `Flash`, `StorageLayout`, `StorageOps`, `RingLog`, `RingLogRuns`, `StorageContents`, `AppStorage` |
| CoAP Block2 firmware download | `CoapClient`, `UpdateSteps`, `UpdateRuns`, `UpdateOutcomes`, `UpdateServers`, `AppUpdateCoap` |
| XMODEM receiver | `XmodemSteps`, `XmodemRuns`, `AppUpdateXmodem` |
| Request, retransmission, failure escalation | `RequestSteps`, `RequestRuns`, `RequestReplies`, `DownloadRequests`, `DtlsClient`, `Escalation` |
| Battery forecast and curves | `Forecast`, `ForecastResults`, `Transform` |
| Modem states and mode stack | `ModemEvents`, `ModeStack` |
| Codecs and sampling | `PsmTimers`, `Plmn`, `TimeOption`, `ScaleAdc` |

`Bytes` holds the big-endian codec and C's truncating division. `dafny verify dfyconfig.toml` checks everything.

## Where the code differs from what one expects

Each of these is kept as the code has it, with a witness, and where the good case can be named in advance
with the exact condition.

- The start-up scan of the ring log reads 32 bytes at a time, also behind the end of the section. On a device
  that ends inside the last chunk the read fails, and a log whose free slot lies there is reformatted.
  `RingLogRuns.RebootLosslessIff` gives the condition; `RingLogRuns.ShippedSection` applies it to the section
  of the firmware.
- `modem_init` clears the ready bit and leaves the connected bit. `ModemEvents.BracketedIff`: the works of all
  later runs are well bracketed exactly when that bit was clear.
- The 16-bit timeout of a request keeps the doubling law for all runs exactly when `coap_timeout` is at most
  1638 s (`RequestRuns.LawfulIff`). A download request whose first send is put off starts from the doubled
  timeout of the request before: `DownloadRequests.DownloadLawfulIff` gives the exact condition on the start,
  `DownloadRequests.StaleDownloadTimeout` a run into the bad case with a `coap_timeout` of 1638 s.
- Without ETags a server that changes its image between two blocks gets a mixture accepted. All finished
  transfers are one representation exactly when the servers send ETags (`UpdateServers.OneImageIff`).
- An inner `modem_at_restore` pops its level and still returns an error (`ModeStack.RestoreReports`);
  `modem_at_system_mode_set` returns 0 when the push-off before it failed (`ModeStack.ModemAt.SystemModeSet`).
- PSM requests above 31 of the largest unit are cut to 5 bits and printed as a shorter time
  (`PsmTimers.TimerOptimalIff`).
- The repetitions are kept in 8 bits: 64 uplink repetitions, counted as 256, are taken for 0, and the scale is that
  of a good channel (`ModemEvents.RepetitionExactIff`, `ModemEvents.CutRepetition`).
- The nibble order of network codes of 3 digits follows TS 24.008 only for 3 equal digits
  (`Plmn.NibblesConformIff`).
- The time scale is one of five values, none between 250 and 349, so the first block size of 512 bytes is never
  chosen (`UpdateServers.FirstBlockSizes`).
- The mean of negative samples can lie above all of them: `ScaleAdc.AverageAboveMaxIff` says when.
- A download request whose packet cannot be built is not sent and not asked for again
  (`AppUpdateCoap.Downloader.Next`); a download whose area cannot be prepared stays marked as running
  (`AppUpdateCoap.Downloader.Start`).

## Assumptions

- Flash: programming clears bits only (new byte = old byte AND data), erased bytes are 0xff, pages are
  uniform, reads and erases outside the device are refused and nothing else fails. A section has at least two
  whole aligned pages; the item size divides the page and 32; the header leaves room for a slot in its page.
- `coap_update_from_block` belongs to the CoAP library: on success the offset is NUM * 2^(SZX+4), the block size
  does not grow and a known total size does not change. Everything about the download holds for any function
  with this contract; `UpdateServers.TakeBlockLawful` gives one.
- Bytes handed to `appl_update_write` are taken as written, as the code ignores the result.
- The CRC-16, the modem library, clocks, the converter and the peer are parameters or events.

## Model

| member | source | states |
|---|---|---|
| Flash.ReadMemory | src/appl_storage.c:142-151 | A read inside the device returns its bytes, any other is refused. |
| Flash.WriteMemory | src/appl_storage.c:153-163 | Programming changes only the addressed bytes, each to its AND with the data. |
| Flash.EraseMemory | src/appl_storage.c:165-174 | An erase inside the device sets exactly its range to 0xff, any other is refused. |
| Flash.ProgramErased | src/appl_storage.c:552-557 | Programming an erased range stores the data unchanged and nothing else. |
| AppStorage.IsErased | src/appl_storage.c:272-280 | The loop finds out exactly whether all bytes have the erase value. |
| RingLog.ItemFirstByte | src/appl_storage.c:550 | The masked time keeps the first byte of any written slot below 0x80, so it never reads as erased. |
| RingLog.DecodeItem | src/appl_storage.c:564-594 | The stored bytes of an item decode to its seconds and value. |
| RingLog.FormatEmpty | src/appl_storage.c:287-303 | Whatever the device holds, a format gives the empty list with a valid header and leaves other sections alone. |
| RingLog.WriteHitsErasedSlot | src/appl_storage.c:520-557 | Flash discipline: the item is programmed over a fully erased slot; the page erased before it is never the page written and lies right behind the last erased slot. |
| RingLog.ItemIndexStep | src/appl_storage.c:520-562 | How a write changes which item each slot holds: the written slot gets the newest, the erased page loses its items, all other slots keep theirs; the erased slots stay one run that starts at the write position. |
| RingLog.WriteAppends | src/appl_storage.c:520-562 | A completed write turns the state of a list into the state of the list with the item appended, header valid, bytes outside the section unchanged. |
| RingLogRuns.WriteReadable | src/appl_storage.c:520-562 | What can be read after a write is what could be read before without the items of the erased page, all of them the oldest, plus the new item. |
| RingLogRuns.WalkReads | src/appl_storage.c:564-640 | The backward walk yields the list newest first from any of its positions and stops at the first erased slot. |
| RingLogRuns.ReadsNewestFirst | src/appl_storage.c:604-640 | Indexed reads return the written items newest first; at least the newest min(written, slots - slots per page), fewer than one lap. |
| RingLogRuns.RebootKeeps | src/appl_storage.c:305-337 | In every reachable state start-up finds exactly the writer's offset when the scan chunk at that slot is readable, and formats the section otherwise; for a nonempty list this is an if and only if. |
| RingLogRuns.RunRefinesList | src/appl_storage.c:287-562 | Every sequence of writes, reboots and formats refines the same operations on a list, never gets stuck, and leaves the bytes of other sections alone. |
| RingLogRuns.RebootLoses | src/appl_storage.c:318-332 | A device that ends inside the last scan chunk: after filling all slots but one, a reboot loses the items. |
| RingLogRuns.RebootLosslessIff | src/appl_storage.c:305-337 | All runs from a format keep the whole list exactly when the last scan chunk lies inside the device. |
| RingLogRuns.ShippedSection | src/appl_storage_config.c:28-39 | A 4-page section of 2-byte values at offset 0 is well formed, and safe exactly on devices at least 16 bytes longer than the section. |
| StorageContents.WriteThenRead | src/appl_storage.c:520-594 | Reading the newest entry after a write gives, for every time of the 47-bit second counter, the time rounded down to whole seconds, and otherwise its seconds modulo 2^47; the value is the one written, cut to the size of the section or padded with 0xff. |
| StorageContents.HeadersDiffer | src/appl_storage.c:395-397 | The header bytes of two sections are equal exactly when magic, version and value size are. |
| StorageContents.ScanFirst | src/appl_storage.c:318-330 | The scan stops at the first readable slot with 6 erased time bytes. |
| StorageContents.StartUp | src/appl_storage.c:305-337 | Start-up on any device content: with a foreign header or without a free slot the section holds the empty list; otherwise no byte changes and the first free slot is next; in every case the header bytes are the section's, the next slot's time bytes are erased and other sections are untouched. |
| AppStorage.Storage.constructor | src/appl_storage.c:378-407 | Start-up on any device content: a foreign header is formatted, a good one is scanned, with the results of `StartUp`; on the bytes of any running writer it finds that writer's offset and changes nothing. |
| AppStorage.Storage.Format | src/appl_storage.c:287-303 | The method leaves the formatted state, which represents the empty list. |
| AppStorage.Storage.InitOffset | src/appl_storage.c:305-337 | Header test, scan, and format as the last resort, with the results of `StartUp` for any device content. |
| AppStorage.Storage.FindFree | src/appl_storage.c:317-330 | The chunked scan finds the first readable erased slot if there is one. |
| AppStorage.Storage.ScanChunk | src/appl_storage.c:319-329 | The inner loop agrees with the slot-by-slot scan inside one chunk. |
| AppStorage.Storage.ReadAhead | src/appl_storage.c:529-536 | The read before a write returns the slot at the write position and the first byte of the next slot, also across the end of the section. |
| AppStorage.Storage.FreeNext | src/appl_storage.c:538-549 | A next slot in use has its page erased and, in the first page, the header written again. |
| AppStorage.Storage.WriteItem | src/appl_storage.c:520-562 | The method appends its item to every list the state represents, and the newest entry then reads as the written time, in whole seconds, and value. |
| AppStorage.Storage.ReadItem | src/appl_storage.c:564-594 | One step back, wrapping at the start: the item there or the end. |
| AppStorage.Storage.ReadIntItems | src/appl_storage.c:604-640 | Times and codes of up to `count` items, newest first from `index`; the return value is their number, -EINVAL for a count of 0. |
| AppStorage.Storage.ReadBytesItem | src/appl_storage.c:654-681 | The item `index` places before the newest, cut to the buffer, or 0. |
| CoapClient.TokenBytesInjective | src/coap_client.c:158-163 | Different 32-bit tokens never compare equal. |
| CoapClient.Match | src/coap_client.c:124-179 | A message counts as response exactly when it is not empty and carries the pending token; ACK and RST are recognised exactly for the pending message id. |
| CoapClient.DecodeEtag | src/coap_client.c:39-60 | The 9-byte buffer holds the length and the first 8 bytes of the option, zeros behind. |
| CoapClient.EtagBuffersAgree | src/coap_client.c:39-60 | Two kept ETags are equal exactly when the first 8 bytes of the options are. |
| UpdateSteps.FirstRequestReached | src/appl_update_coap.c:77-103 | A started download whose area was erased is, after its first request, in the state all results about it start from. |
| UpdateRuns.RunAssembles | src/appl_update_coap.c:364-615 | The assembly invariant is kept by every run of responses, requests, cancel commands and foreign token draws; requests once sent stay as they were. |
| UpdateRuns.InOrderExactlyOnce | src/appl_update_coap.c:364-615 | From the first block request on, for every interleaving of lost, late, repeated or stale responses: the written chunks are at consecutive offsets from 0, their total is the context's offset, and the pending request asks for exactly the next byte. |
| UpdateRuns.StaleIgnored | src/appl_update_coap.c:486-526 | A reply with the token of another request changes nothing. |
| UpdateRuns.LateRepliesIgnored | src/appl_update_coap.c:486-526 | Within 2^32 steps a reply to any request of the download but the last changes nothing. |
| UpdateRuns.RunOneImage | src/appl_update_coap.c:364-484 | With genuine replies, what is written is at every moment the start of one representation, the one the kept ETag names. |
| UpdateRuns.NoMixedImage | src/appl_update_coap.c:398-412 | If every reply to this download's requests carries an ETag and the block of the representation with that ETag, a transfer that reaches its last block has written exactly one representation, even if the server changes it in between. |
| UpdateServers.MixedWithoutEtags | src/appl_update_coap.c:398-412 | From the first request of any download on, without ETags the first block of one image and the second of another are accepted as a finished transfer. |
| UpdateServers.OneImageIff | src/appl_update_coap.c:364-484 | From the first request of any download on, all runs against servers that may change their image between any two blocks finish with one of the representations if and only if the servers send ETags. |
| UpdateOutcomes.StartThenFirst | src/appl_update_coap.c:77-354 | From an idle client the start, the erase and the first request lead to the first block request with an empty ETag; a failed erase ends the download as canceled. |
| UpdateOutcomes.ResponseOutcome | src/appl_update_coap.c:364-484 | What one response does: exactly a content response with the same format and ETag, an announced size of at most 0x70000 and the full or last block at the client's offset is written; the last one makes the download ready exactly when the image is valid and failed otherwise; any other response writes nothing and cancels with its reason. |
| UpdateOutcomes.ReadyIsValid | src/appl_update_coap.c:451-473 | Over all runs, an image becomes ready only by a last block with a valid image and the token of one of the requests. |
| UpdateOutcomes.OverStaysOver | src/appl_update_coap.c:486-615 | A download that is over writes nothing, asks for nothing and does not become ready, whatever arrives. |
| UpdateOutcomes.CommandEnds | src/appl_update_coap.c:107-128 | A cancel command ends a running download for good, with its reason. |
| UpdateRuns.ReplyAdvances | src/appl_update_coap.c:451-484 | One reply of an honest server adds the next block, or completes the image. |
| UpdateRuns.HonestDownloadCompletes | src/appl_update_coap.c:364-615 | With any library that keeps its contract and any reply function that is honest, the download ends with the whole body written. |
| UpdateServers.TakeBlockLawful | src/appl_update_coap.c:421-429 | A library that takes the offset and the smaller block size keeps the contract. |
| UpdateServers.FirstAwaits | src/appl_update_coap.c:77-103 | A started download awaits the first block of any body after its first request. |
| UpdateServers.ServeIsGood | src/appl_update_coap.c:543-615 | A server that answers the request it gets, in the requested size or a smaller one of its own, gives an honest reply in every awaiting state. |
| UpdateServers.DownloadCompletes | src/appl_update_coap.c:77-615 | From the erase on, against such a server the download ends with exactly the body written, for every body and every block size of the server. |
| UpdateServers.FirstBlockSizes | src/appl_update_coap.c:82-90 | The first request asks for 256 bytes with more than 32 (up to 128) repetitions or an RSRP of at most -125 dBm, for 1024 bytes otherwise, never for 512. |
| AppUpdateCoap.Downloader.Start | src/appl_update_coap.c:311-354 | Marks the download as running, with cleared flags and ETag, exactly when none runs and the version is not there yet; reports success exactly when the update area could be prepared too. |
| AppUpdateCoap.Downloader.EraseFn | src/appl_update_coap.c:77-103 | After an erase the block context starts at offset 0 and the next request is the first one of a running download; a failed erase cancels the download. |
| AppUpdateCoap.Downloader.CancelDownload | src/appl_update_coap.c:107-128 | Ends the download as canceled or ready; the reason is kept for a running one only. |
| AppUpdateCoap.Downloader.Next | src/appl_update_coap.c:543-615 | Builds one request, for the current offset and with a fresh token, exactly when one is due, and sends it if it could be built; the request flag is cleared in both cases. |
| AppUpdateCoap.Downloader.CheckContent | src/appl_update_coap.c:378-412 | Code, content format and ETag checks with the reason of a refusal, and what they keep for later responses. |
| AppUpdateCoap.Downloader.CheckEtag | src/appl_update_coap.c:398-412 | The first block's ETag is kept; later ones are compared with it. |
| AppUpdateCoap.Downloader.CheckBlock | src/appl_update_coap.c:413-450 | The Block2 checks with the reason of a refusal, and the context to go on with. |
| AppUpdateCoap.Downloader.HandleResponse | src/appl_update_coap.c:364-484 | The method does the response step of the model, for any library update; `UpdateOutcomes.ResponseOutcome` states its result. |
| AppUpdateCoap.Downloader.ParseData | src/appl_update_coap.c:486-526 | The method does the receive step of the model and keeps the assembly invariant. |
| XmodemRuns.FeedFrame | src/appl_update_xmodem.c:44-74 | A frame in any non-empty pieces: every proper prefix gives "none", the last piece "block ready", and the whole frame is handed over once, unchanged. |
| XmodemRuns.FeedGood | src/appl_update_xmodem.c:95-149 | A good frame is written when it has the expected number and recognised as duplicate when it has the one before. |
| XmodemRuns.OtherNumber | src/appl_update_xmodem.c:135-146 | A good frame with neither the expected number nor the one before is refused and changes nothing. |
| XmodemRuns.WriteBlockEffects | src/appl_update_xmodem.c:95-149 | The image grows exactly with a written block, by the bytes behind the header, with the next number expected; every other result keeps image and number. |
| XmodemRuns.OverlongRefused | src/appl_update_xmodem.c:44-74 | Data that does not fit the buffer is refused as a whole. |
| XmodemRuns.EndOfTransferIff | src/appl_update_xmodem.c:69-71 | The end of the transfer is reported exactly for one EOT byte. |
| XmodemRuns.FeedBehindBadHead | src/appl_update_xmodem.c:44-149 | Behind a rejected frame every piece is refused and nothing is written or acknowledged until the retry. |
| XmodemRuns.FeedGarbled | src/appl_update_xmodem.c:44-74 | A frame with a damaged type or block number, in any pieces, is rejected and leaves block number and image as they were. |
| XmodemRuns.StepInStep | src/appl_update_xmodem.c:44-149 | Every event of the transfer keeps receiver and stop-and-wait sender in step. |
| XmodemRuns.TransferInOrder | src/appl_update_xmodem.c:34-149 | For all runs of lost and delivered frames, frames damaged in type, block number, data or check, lost acknowledgements and retries, and any number of blocks across the mod-256 wrap: exactly blocks 1..r are written once each in order, r being the acknowledged count or one more. |
| XmodemRuns.RetryThenDeliver | src/appl_update_xmodem.c:44-149 | No state is stuck: after a retry, a frame that arrives with its acknowledgement moves the transfer on by exactly one block. |
| XmodemRuns.CompleteTransfer | src/uart_manager.c:671-770 | When all blocks are acknowledged the image is exactly the blocks, and with an empty buffer the end of transmission is recognised. |
| AppUpdateXmodem.Xmodem.constructor | src/appl_update_xmodem.c:34-42 | The receiver starts with an empty buffer and expects block 1. |
| AppUpdateXmodem.Xmodem.Start | src/appl_update_xmodem.c:34-42 | A restart expects block 1 again with the chosen check. |
| AppUpdateXmodem.Xmodem.Append | src/appl_update_xmodem.c:44-74 | The method does the append step of the model: bytes placed behind the received ones, and the verdict on the buffer. |
| AppUpdateXmodem.Xmodem.Retry | src/appl_update_xmodem.c:76-79 | Drops the received bytes and nothing else. |
| AppUpdateXmodem.Xmodem.Checksum | src/appl_update_xmodem.c:121-132 | The loop adds up exactly the bytes of the block. |
| AppUpdateXmodem.Xmodem.WriteBlock | src/appl_update_xmodem.c:95-149 | The method does the write step of the model, with CRC or checksum. |
| DtlsClient.NetworkTimeoutScale | src/dtls_client.c:1069-1078 | The scaled timeout, cut to 16 bits. |
| DtlsClient.Request.SetRequestState | src/dtls_client.c:1053-1067 | A request that expects no response is finished when it would start to wait for one. |
| DtlsClient.Request.AdjustInitialTimeout | src/dtls_client.c:1093-1102 | The first timeout is replaced by the scaled one when forced or longer. |
| DtlsClient.Request.SendToPeer | src/dtls_client.c:1172-1225 | The send step: first transmissions fix the timeout, a connected modem waits for the reply at once. |
| DtlsClient.Request.Resend | src/dtls_client.c:2300-2318 | One retransmission: timeout doubled, counter raised, sent again. |
| DtlsClient.Request.PollTimeout | src/dtls_client.c:2249-2330 | The timeout branch of the main loop for a running request. |
| DtlsClient.Request.LteConnected | src/dtls_client.c:1583-1619 | A connect after a pending send is passed on to the next poll timeout. |
| DtlsClient.Request.ReadFromPeer | src/dtls_client.c:1116-1163 | The switch on a parsed message: reset, acknowledgement, response and confirmable response in the states they count in. |
| RequestReplies.AckStops | src/dtls_client.c:1143-1147 | After an acknowledgement no event sends the message again or waits for another one, and the request ends within 61 poll timeouts. |
| RequestReplies.AnswerEnds | src/dtls_client.c:1137-1159 | A reset and a response, confirmable or not, end every pending request for good. |
| RequestReplies.StrayIgnored | src/dtls_client.c:1133-1159 | Messages in states that do not wait for them change nothing. |
| RequestReplies.OverStaysOver | src/dtls_client.c:2249-2330 | A request that is over is not started again by any event. |
| RequestReplies.ConnectionKeepsRequest | src/dtls_client.c:1583-1619 | The connection alone changes no request; a connect edge passes a waiting send on. |
| RequestReplies.UnconnectedWaits | src/dtls_client.c:2282-2324 | Not connected, a transmission is given exactly the extra time before the next one, and the last one is given up with the next poll timeout. |
| RequestReplies.MessageStarted | src/dtls_client.c:1406-1477 | State and timeout of a message after its first send, for every result of sending. |
| RequestReplies.ConnectedWithoutResponse | src/dtls_client.c:1053-1067 | A sent message without expected response ends with the poll timeout after the connect. |
| RequestReplies.ScaledRounds | src/dtls_client.c:1069-1078 | The scaled timeout is the percentage of at least 100, rounded down. |
| RequestRuns.StepShrinks | src/dtls_client.c:2249-2330 | Every poll timeout of a running request lowers a bound on the poll timeouts left; no other event raises it, and a finished request does not run again. What each reply does is stated by `RequestReplies`. |
| RequestRuns.RequestTerminates | src/dtls_client.c:2249-2330 | Whatever the configuration and the events, a request ends within a fixed number of poll timeouts and is resent at most 3 times. |
| RequestRuns.RequestTimeouts | src/dtls_client.c:1069-1102 | With a first timeout of at most `bound`, it ends within 15 * bound + 4 * extra + 309 poll timeouts, and the timeout is the first one times 2^retransmission in 16 bits. |
| RequestRuns.UnansweredBacksOff | src/dtls_client.c:2282-2324 | Connected and without an answer, a request with first timeout t is resent by exactly the poll timeouts t + 1, 3t + 2 and 7t + 3 and fails with poll timeout 15t + 4, not before. |
| RequestRuns.GivesUpAfter60 | src/dtls_client.c:2274-2330 | A send that is never connected and a wait for a separate response fail with the 61st poll timeout, not before. |
| RequestRuns.StartLawful | src/dtls_client.c:2112-2240 | A started message has such a first timeout; a download request has when its first send is accepted or the old timeout is small. |
| RequestRuns.LawfulIff | src/dtls_client.c:1069-1102 | The doubling law holds in all runs exactly when `coap_timeout` is at most 1638. |
| RequestRuns.OverflowRun | src/dtls_client.c:1069-1102 | For every larger value, the run in which the law fails. |
| DownloadRequests.DownloadLawfulIff | src/dtls_client.c:2112-2123 | For a download request: the doubling law holds in all runs exactly when its start meets a condition on the result of the first send, `coap_timeout`, the connection, the expected response and the old timeout; for a request that waits for a response, `coap_timeout` at most 1638 and the first send accepted, or not yet connected, or the old timeout at most 8191. |
| DownloadRequests.MisfitBreaks | src/dtls_client.c:2112-2330 | For every start that does not meet it, the run in which the timeout is cut. |
| DownloadRequests.StaleDownloadTimeout | src/dtls_client.c:2112-2123 | The bad case is reached with `coap_timeout` 1638: a message answered after its third retransmission, then a download request whose first send is put off. |
| Escalation.EscalationInOrder | src/coap_appl_client.c:1129-1149 | Over all runs: current minus handled failures is 0 or 1, handled values since the last success are 1, 2, 3, ..., the answers are new message, modem off, with DTLS a handshake, and a restart for exactly the later ones. |
| Escalation.FailuresHandled | src/dtls_client.c:795-816 | Over all runs since a success: the handled failures are the turns of the main loop that found a counted failure waiting, and one failure is open exactly when one came after the last turn. |
| Escalation.FailureCounter.IncFailures | src/dtls_client.c:795-801 | Counts at most one failure beyond the handled ones. |
| Escalation.FailureCounter.NextFailures | src/dtls_client.c:803-810 | Hands out every failure once, with the number after the last handled one. |
| Escalation.FailureCounter.ClearFailures | src/dtls_client.c:812-816 | A success restarts the count. |
| Forecast.LeftTime | src/power_manager.c:494-509 | The time until the line through two points reaches level 0, rounded down, added to the given time; refused exactly for equal levels. |
| Forecast.CalculateOrdered | src/power_manager.c:511-638 | One sample keeps the history invariant, and an estimate is not negative. |
| Forecast.RefreshOrdered | src/power_manager.c:600-613 | Every refresh divides by positive level differences, so the guard against 0 does not fire. |
| Forecast.RefreshWeighs | src/power_manager.c:601-612 | The estimate is the line of the first period, later two parts of the line over all periods and one part of the last period's line, divided by 3 and rounded down. |
| Forecast.HistoryOrdered | src/power_manager.c:511-638 | For all runs with nondecreasing uptime: first <= last <= lowest <= now in time, first >= last >= lowest in level, last above lowest when their times differ, the lowest level is the minimum of the accepted samples, and the division guard never fired. |
| ForecastResults.CalculateReports | src/power_manager.c:616-638 | A sample reports a time exactly when it counts and an estimate exists; the time is the last estimate less the time since it was made, over every sample between two estimates. |
| ForecastResults.RunningForecast | src/power_manager.c:561-615 | The lowest level is tracked; an estimate is made exactly after a drop of 20 or a day in the first period, later after both or a week; the history starts over once, after the first day. |
| ForecastResults.StartsAtDrop | src/power_manager.c:561-573 | A forecast starts with the first drop after a reset, at that sample, and reports nothing yet. |
| ForecastResults.ResetWaits | src/power_manager.c:517-559 | An invalid level, charging, or a rise above the threshold starts over, and for an hour only another reset has an effect. |
| Forecast.BatteryForecast.CalculateLeftTime | src/power_manager.c:494-509 | The method adds the left time to the estimate, or notes that the guard fired. |
| Forecast.BatteryForecast.RefreshEstimate | src/power_manager.c:600-613 | The method does the refresh of the model. |
| Forecast.BatteryForecast.NoteLevel | src/power_manager.c:561-573 | Tracks the lowest level and starts the forecast at the first drop. |
| Forecast.BatteryForecast.StartSecondDay | src/power_manager.c:576-583 | After the first day the history restarts once, at the lowest point. |
| Forecast.BatteryForecast.CalculateForecast | src/power_manager.c:511-638 | The method does the step of the model on the static history and keeps the invariant; `ForecastResults.CalculateReports` states what it returns. |
| Transform.TransformCurve | src/transform.c:23-54 | For every curve with strictly decreasing inputs, rising outputs included, the search loop and the arithmetic give the value of the curve. |
| Transform.ValueIsLinear | src/transform.c:44-53 | Within every segment of any such curve the value is the linear interpolation rounded toward the output of the lower input; outside the curve it is the nearest end's output. |
| Transform.ValueMonotone | src/transform.c:23-54 | A higher input never gives a lower value, over all integers. |
| Transform.ValueInRange | src/transform.c:23-54 | The value stays within the outputs of the curve. |
| Transform.ValueAtPoint | src/transform.h:19-32 | The value is exact at every point of the curve. |
| Transform.BatteryLevel | src/power_manager.c:190-335 | With each battery curve the level is monotone in the voltage, between 0 and 10000, and the product before the division fits 32 bits. |
| ModemEvents.Status | src/modem.c:513-557 | After an evaluation the ready and connected bits are exactly what the inputs say. |
| ModemEvents.RunBracketed | src/modem.c:513-579 | For all interleavings of registration, PDN, RRC and refresh steps the submitted works follow the protocol the bits stand for, and connected implies ready. |
| ModemEvents.CompleteSessions | src/modem.c:513-557 | Whenever the modem is down, the works are repetitions of ready-on (connected-on connected-off)* ready-off. |
| ModemEvents.BracketedIff | src/modem.c:1340-1361 | All runs after `modem_init` are well bracketed exactly when it found the connected bit clear. |
| ModemEvents.SpuriousDisconnect | src/modem.c:1340-1361 | With the bit set, the first evaluation submits a disconnect without a connect. |
| ModemEvents.RefreshAgrees | src/modem.c:2383-2405 | A refresh with callbacks leaves the bits in agreement with what it read. |
| ModemEvents.RunTakesInputs | src/modem.c:559-579 | Every run leaves exactly the registration, PDN and RRC states reported last. |
| ModemEvents.RunFollowsInputs | src/modem.c:513-579 | In runs without silent reads the modem is ready and connected exactly when the inputs reported last say so. |
| ModemEvents.ScaleByCoverage | src/modem.c:1995-2027 | Which scale belongs to which coverage: the limits of repetitions and RSRP for each of the five values. |
| ModemEvents.RepetitionExactIff | src/modem.c:2002 | The 8-bit repetition count is the real one exactly for less than 64 uplink repetitions. |
| ModemEvents.CutRepetition | src/modem.c:2002 | With 64 uplink repetitions the scale is 100, with 32 it is 500. |
| ModemEvents.TimeScale | src/modem.c:1995-2027 | The scale is 100, 150, 200, 350 or 500. |
| ModemEvents.ModemState.ConnectionStatus | src/modem.c:513-557 | The method does the evaluation of the model and keeps the bracketing. |
| ModemEvents.ModemState.RegistrationSet | src/modem.c:559-568 | Evaluates exactly on a change of the registration. |
| ModemEvents.ModemState.ConnectionStatusSet | src/modem.c:570-579 | Evaluates exactly on a change of the RRC state. |
| ModemEvents.ModemState.PdnStatusSet | src/modem.c:1101-1109 | Evaluates exactly on a change of the PDN state. |
| ModemEvents.ModemState.NetworkInfoRead | src/modem.c:2383-2405 | The callback tail: with callbacks the inputs are reset and evaluated again, without they are only stored. |
| ModeStack.StackFollowsDepth | src/modem_at.c:308-366 | For all sequences of pushes and restores and all answers of the modem: the counter is the nesting depth, a mode is held exactly inside, the modem is off strictly inside and in its original mode outside. |
| ModeStack.NestsUndo | src/modem_at.c:308-366 | Properly nested successful pairs undo themselves at any depth. |
| ModeStack.RestoreReports | src/modem_at.c:341-366 | A restore reports success exactly when it is the outermost one and the modem takes the mode; inner ones pop and report an error. |
| ModeStack.PushReports | src/modem_at.c:308-339 | A push reports success exactly when it went one level in with the modem off, and otherwise changes nothing and reports which step failed. |
| ModeStack.ModemAt.PushOff | src/modem_at.c:308-339 | The method does the push of the model. |
| ModeStack.ModemAt.Restore | src/modem_at.c:341-366 | The method does the restore of the model. |
| ModeStack.ModemAt.SystemModeSet | src/modem_at.c:410-423 | The system mode is set exactly inside a successful push-off, a failed one is reported as success, and the nesting is kept. |
| PsmTimers.PrintBinGroups | src/parse.c:20-40 | The loop writes exactly the low bits of any value, negative ones in two's complement, with their group spaces and the NUL, and no other byte. |
| PsmTimers.OneGroup | src/parse.c:20-40 | One group is printed without spaces. |
| PsmTimers.ParsePrinted | src/parse.c:20-40 | Parsing printed bits gives the value back, cut to its low bits. |
| PsmTimers.SelectedIsLeast | src/modem_cmd.c:637-698 | The first unit whose rounded-up count fits gives the least representable time not below the request. |
| PsmTimers.TimerOptimalIff | src/modem_cmd.c:635-700 | The printed timer is that least time for requests up to 31 of the largest unit, and a shorter time for all larger ones. |
| PsmTimers.DecodesUnique | src/modem_cmd.c:635-700 | The 8 bits stand for one time only. |
| PsmTimers.EncodeActiveTime | src/modem_cmd.c:635-651 | The printed active time stands for the least timer not below the request up to 31 * 360 s, and for a shorter time above. |
| PsmTimers.EncodeTau | src/modem_cmd.c:662-700 | The printed update time stands for the least timer not below the request up to 31 * 1152000 s, and for a shorter time above. |
| Plmn.EncodePlmn | src/modem_sim.c:960-985 | Writes the 6 nibbles and the NUL of a PLMN with 5 or 6 digits if they fit, and nothing otherwise. |
| Plmn.GetPlmns | src/modem_sim.c:325-359 | The walk over the response gives the comma-joined entries that fit. |
| Plmn.PlmnRoundTrip | src/modem_sim.c:218-247 | Decoding an encoded decimal PLMN gives it back, whatever follows in the list. |
| Plmn.ListRoundTrip | src/modem_sim.c:325-359 | A list of encoded PLMNs with fillers anywhere decodes to its numbers; 7 characters per entry always have room. |
| Plmn.FittingFits | src/modem_sim.c:325-359 | For every list and size the text with its NUL fits the size. |
| Plmn.FirstNumbersFit | src/modem_sim.c:325-359 | With any size the entries are the first numbers of the list, as many as leave less than 7 characters. |
| Plmn.NibblesConformIff | src/modem_sim.c:960-985 | The encoding follows section 10.5.1.13 of TS 24.008 exactly for network codes of 2 digits or of 3 equal digits. |
| Plmn.ReadBack | src/modem_sim.c:1147-1154 | The response to a read of such a list gives the comma-joined numbers. |
| TimeOption.Encode | src/coap_appl_client.c:68-92 | The loop drops leading zero bytes and keeps one for the sign. |
| TimeOption.Decode | src/coap_appl_client.c:94-114 | The loop reads the bytes as a signed 64-bit value. |
| TimeOption.TimeRoundTrip | src/coap_appl_client.c:68-114 | Decoding the encoded option gives every nonzero 64-bit time back. |
| TimeOption.ShortestPositive | src/coap_appl_client.c:68-92 | For positive times the option has a clear sign bit, and no big-endian form with a clear sign bit is shorter. |
| TimeOption.NegativeTakesAll | src/coap_appl_client.c:68-92 | A negative time takes all 8 bytes of its two's complement. |
| ScaleAdc.ValuesAverage | src/nau7802.c:634-649 | The loop gives the rounded mean of the samples, -ENODATA without any. |
| ScaleAdc.AverageBounds | src/nau7802.c:634-649 | The mean lies between the smallest sample and one above the largest, for nonnegative samples not above it. |
| ScaleAdc.AverageAboveMaxIff | src/nau7802.c:634-649 | The mean lies above the largest sample exactly when there is more than one sample and the sum plus half the count is negative and above the count times that sample. |
| ScaleAdc.AverageAboveAll | src/nau7802.c:634-649 | Four samples of -1 have the mean 0: the case occurs. |
| ScaleAdc.FillWindow | src/nau7802.c:696-722 | The sampling loop keeps in the history the last consecutive samples with a spread within the dither, in time for a converter that settles. |
| ScaleAdc.ReadChannelValue | src/nau7802.c:682-760 | Success means the mean of the last `min_values` consecutive samples with a spread within the dither and in range; every failure has its cause; the loop ends within `max_loops` and no index leaves the history; with a converter that settles it does not give up when `max_loops` leaves room for one broken window, and from settled samples on it needs `min_values` reads. |

## Left out

- Storage: EEPROM mode, where one byte is erased and six are examined, and power loss inside a write are not modelled.
- Storage: mutexes, `device_is_ready`, the table of several sections and their listing; a section is one object.
- Storage: results of failing flash writes and erases; inside the device they succeed.
- AppStorage.Storage.constructor: the offsets of several sections in one table are given, not computed.
- CoAP download: the `fota apply` command and its version test, responses that arrive between a new download's start and its first request, and the status texts.
- CoAP download: finishing the image, its version test and the upgrade request are one boolean.
- AppUpdateCoap.Downloader.CheckContent: the content format of the first response is kept over later downloads, as in the code; nothing is claimed about its use.
- CoapClient.EtagBuffersAgree: ETags longer than the 8 bytes of section 5.10.6 of RFC 7252 are compared on 8 bytes, as in the code.
- Requests: the DTLS handshake, reopening the socket, the separate acknowledgement of confirmable responses (SEND_ACK) and leaving WAIT_SUSPEND.
- XMODEM: the UART driver and truncated frames, after which the receiver waits for its retry; the CRC-16 algorithm.
- XmodemRuns.TransferInOrder: damage that keeps the check valid, and a type byte damaged into EOT that arrives
  alone and is taken as the end of the transfer, are not modelled.
- Transform.TransformCurve: 32-bit overflow of the product, which the battery curves exclude.
- Forecast.BatteryForecast.CalculateForecast: the result is in milliseconds; rounding to an int16 count of days, which can wrap, and the linear regression are left out.
- Forecast.LeftTime: 64-bit overflow is not modelled.
- Modem events: delivery to the application, as the kernel coalesces a work item that is already queued.
- Modem mode: the radio side of the modes; other code that changes the mode between a push-off and its restore.
- PSM: parsing of the command line, the unit letter of the update time (the model takes seconds) and integer overflow of the requested times.
- PLMN: hexadecimal digits in an encoded PLMN and the preferred list.
- TimeOption.Encode: time 0, for which the index runs behind the 8 bytes before the sign test.
- ScaleAdc.ReadChannelValue: starting and stopping the converter and its I2C errors; the calibration phases of the scale.
- The shell command queue, sensors, LEDs, settings, packet building and board start-up would only add I/O.
