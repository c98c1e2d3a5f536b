# OPPA: a verified model of the print agent

OPPA receives print jobs from a server, keeps them in a durable database, renders receipts and hands them to a
spooler. This project models the parts of it where several pieces of code must agree, and proves that they do.

**The durable job protocol.** `Store` is the database as a value and `Storage` the repository object that updates its
two tables in place; `StoreEffects` says field by field what each call does. `Protocol` is a state machine over both
tables and the volatile state: the active map, the holder of the drain lock, the spooler call in flight, receipts and
reports in memory. Each event is one lock region or repository call, and carries what the surroundings choose: times,
fresh message identities, the spooler's answer, a storage fault. A crash clears the volatile state at any point. Ghost
history counts spooler calls and recoveries per incarnation of a row, because a job identity can be evicted by
retention and delivered again. Reporting tasks may run in any number and order here, which allows every behaviour the
flow and outbox locks allow and more. `JobProcessing` shows that the processor's methods take exactly these steps,
`ProtocolFlow` adds what the agent's flow lock guarantees on top, `ProtocolCancel` follows a cancellation to the end
of the spooler call and `ProtocolTimes` a row from its finish to its removal, `Runtime` proves the batched outbox
replay, and `AgentFlows` composes receiving, draining, recovering and reporting.

**The ESC/POS printer and its parser.** `EscPosRender` writes bytes, `EscPosParser` reads them back with the
mutable parser of the source, `EscPosTable` says what each command does, and `EscPosRoundTrip` what comes out of
printing and reading: a normal form in general, the layout itself exactly when it is canonical. Both rest on the
greedy wrapper in `Wrapping`.

**The receipt preview.** `Raster` is the packed canvas, `ReceiptMeasures` the measures, `ReceiptInk` the region every
element blackens, `ReceiptPreview` the drawing methods that blacken exactly these, and `ReceiptFits` says when the
height estimate suffices. `ReceiptCodes` and `ReceiptGeometry` say what the regions and measures mean.

**Kernels.** Canonical base64url (`Base64Url`), page ranges (`PageRanges`), the WebSocket transport (`Transport`) and
the version-fallback planner (`Planner`).

Four results are about where the code does not do what a reader might expect, each with its exact condition:

- The preview height estimate and the drawing use different formulas for the right column of a row, and an image or
  barcode that vanishes at the resolution is drawn one dot high but reserved no row. Four glyph scales of rows are
  left over, so all layouts with at most k vanishing elements fit if and only if k is at most that and the number of
  columns is not a multiple of five (`PreviewsFitIffFewVanish`). At 203 DPI, on both widths, k is eight.
- A drain works on the rows it read at its start. The agent holds its flow lock across receiving and draining, and
  then the spooler always gets the row's own document (`ProtocolFlow.SubmittedDocumentIsTheRows`). A host that
  drives the public `JobProcessor` directly has no such lock: a job cancelled, evicted and delivered again during
  the drain is claimed with its old document, under every retention limit (`StaleDocumentCanBeSubmitted`).
- Pruning loses the payload a redelivery is compared with. Answers stay those of a store that keeps everything
  exactly when no fingerprint collides (`InsertAnswersAlikeIffNoCollision`).
- The Windows bitmap weighs colour channels in sixteen bits, where the sum of a light colour wraps around in a
  release build (a debug build panics on it). An opaque colour comes out as its luminance says if and only if it is
  dark; white turns black (`OpaqueShowsItsLuminanceIffDark`). The renderer itself only makes one-bit pages.

`dafny verify dfyconfig.toml` checks the whole project.

## Model

| member | source | states |
|---|---|---|
| Wrapping.WrapText | crates/oppa-renderer/src/lib.rs:408-452 | the greedy loops: a newline always ends a line, so what stands on its two sides is wrapped on its own, and the empty text is one blank line; the result is the specification `Wrapped`, on which the next results are proved |
| Wrapping.BreakWord | crates/oppa-renderer/src/lib.rs:427-439 | the inner loop breaks an over-long word into full segments and leaves the last one open |
| Wrapping.NewlinesBreak | crates/oppa-renderer/src/lib.rs:408-413 | the same of the specification, for all texts and widths |
| Wrapping.WrappingIsGreedy | crates/oppa-renderer/src/lib.rs:414-447 | the greedy law, which with the line breaks determines the wrapping of every text: behind a blank the next word joins the last line if it fits there with one space, and otherwise starts lines of its own, cut into full segments if it is too long; trailing blanks change nothing |
| Wrapping.WiderNeverNeedsMoreLines | crates/oppa-renderer/src/lib.rs:408-452 | a wider line never needs more lines, for every text, broken long words included |
| Wrapping.WrappedLinesFitAndAreStable | crates/oppa-renderer/src/lib.rs:408-452 | every emitted line fits the width and wraps to itself |
| Wrapping.StableIffEmitted | crates/oppa-renderer/src/lib.rs:408-452 | a line wraps to itself exactly when it is empty or its words are joined by single spaces and fit |
| Wrapping.WrappingConservesInk | crates/oppa-renderer/src/lib.rs:408-452 | the non-whitespace characters of the lines, in order, are those of the text |
| Wrapping.WrappedIsPrintable | crates/oppa-renderer/src/lib.rs:408-452 | text without control characters other than whitespace wraps to printable lines only |
| Rows.LayoutRow | crates/oppa-renderer/src/lib.rs:454-476 | cells that together are narrower than the receipt share one line with the blanks between them; otherwise line k is the k-th lines of both cells, wrapped to three fifths and to what is left behind a blank, set apart to the receipt's width; read downwards each column holds the visible characters of its cell in order |
| Rows.RowReadsBack | crates/oppa-renderer/src/lib.rs:454-476 | the same of the specification, for all cells and every width of at least three columns |
| Rows.CrLfIsOneColumn | crates/oppa-renderer/src/lib.rs:454-458 | a CR LF is as wide as one character anywhere in a text |
| EscPosRoundTrip.RowLinesFit | crates/oppa-renderer/src/escpos.rs:59-140 | every line printed for a row of printable cells is printable and exactly one receipt wide |
| EscPosParser.Parser.Run | crates/oppa-renderer/src/escpos.rs:194-228 | the parser's loop over its mutable fields gives exactly the command-by-command meaning of the bytes, terminates and reads in range |
| EscPosParser.Parser.ParseEscape | crates/oppa-renderer/src/escpos.rs:229-281 | one ESC command flushes pending text, is counted, and does what its decoding says, or fails at its own offset |
| EscPosParser.Parser.ParseGroupSeparator | crates/oppa-renderer/src/escpos.rs:282-324 | the same for the GS commands |
| EscPosParser.Parser.ParseRasterImage | crates/oppa-renderer/src/escpos.rs:325-374 | raster dimensions, limits and payload, with truncation and unsupported modes told apart |
| EscPosParser.Parser.ParseQrCommand | crates/oppa-renderer/src/escpos.rs:376-428 | QR model, size, correction, store and print sub-commands |
| EscPosParser.Parser.ParseBarcode | crates/oppa-renderer/src/escpos.rs:430-473 | barcode types and the Code 128 prefix |
| EscPosParser.Parser.FinishTextLine | crates/oppa-renderer/src/escpos.rs:475-503 | a finished line is a blank feed, a divider, a row or a text |
| EscPosParser.FindRow | crates/oppa-renderer/src/escpos.rs:572-596 | the index loop finds the last gap of at least two spaces and trims the cells around it |
| EscPosParser.Interpret | crates/oppa-renderer/src/escpos.rs:154-165 | interpreting any byte string gives the specified interpretation or the specified failure |
| EscPosStreams.InterpretationIsSound | crates/oppa-renderer/src/escpos.rs:194-323 | on any bytes: success yields only elements of the parser's shapes, every diagnostic equals its count or sum over the layout or over the commands carried out, and at most one command is unsupported |
| EscPosStreams.UnsupportedStopsForGood | crates/oppa-renderer/src/escpos.rs:557-562 | once a prefix stops on an unsupported command, appending anything changes nothing |
| EscPosTable.TextBytes | crates/oppa-renderer/src/escpos.rs:194-217 | for every state and continuation: printable bytes join the line up to 256 KiB, a carriage return does nothing, any other control byte stops interpretation where it is |
| EscPosTable.LineEnds | crates/oppa-renderer/src/escpos.rs:475-503 | a newline makes a blank feed of an empty line and one element of any other, and counts it |
| EscPosTable.LineElementIs | crates/oppa-renderer/src/escpos.rs:475-503 | a line is a divider exactly if it is all dashes and as wide as the receipt; else a row exactly if a wide gap stands behind visible characters, split at the last such gap without the blanks around it; else a text |
| EscPosTable.EscapeCommands | crates/oppa-renderer/src/escpos.rs:229-281 | ESC @, a, E and d: which values are taken, what they change, and which stop interpretation |
| EscPosTable.GroupCommands | crates/oppa-renderer/src/escpos.rs:282-324 | GS H, h and V likewise, and every unknown GS command |
| EscPosTable.RasterPixelsRead | crates/oppa-renderer/src/escpos.rs:325-374 | a raster fails for a zero dimension, more than 2 MiB or missing pixels, and otherwise becomes an image of eight pixels to the byte at 203 DPI |
| EscPosTable.QrCommands | crates/oppa-renderer/src/escpos.rs:376-428 | which GS ( k payloads set, store and print, and what a print does without stored data |
| EscPosTable.BarcodeCommand | crates/oppa-renderer/src/escpos.rs:430-473 | the four barcode types, the set-B prefix, truncation and text that is not UTF-8 |
| EscPosTable.InterpretationBeginsAndEnds | crates/oppa-renderer/src/escpos.rs:154-228 | the starting state, and the pending text that becomes a last element unless interpretation stopped |
| Utf8.Utf8IffEncoding | crates/oppa-renderer/src/escpos.rs:405-470 | the strings taken as text are exactly the encodings of Unicode scalar values, RFC 3629, sections 3 and 4 |
| EscPosRender.RenderLayout | crates/oppa-renderer/src/escpos.rs:59-140 | a layout prints if and only if its texts and cells are ASCII and every code fits its format: Code 128 ASCII of at most 253 characters, Code 39 its 43 characters up to 255, EAN-13 12 or 13 digits, UPC-A 11 or 12; otherwise the error is that of the first element that does not |
| EscPosRender.TextOnPaper | crates/oppa-renderer/src/escpos.rs:59-83 | the bytes of a receipt of one text, in numbers: reset, alignment 0, 1 or 2, bold, the lines, bold off |
| EscPosRender.BarcodeOnPaper | crates/oppa-renderer/src/lib.rs:535-585 | the bytes of a receipt of one barcode: types 73, 69, 67 and 65, length and the set-B prefix |
| EscPosRender.QrOnPaper | crates/oppa-renderer/src/lib.rs:520-533 | the bytes of a receipt of one QR code: model 2, module size 6, correction M, store and print |
| EscPosRender.OthersOnPaper | crates/oppa-renderer/src/escpos.rs:92-139 | dividers of 32 or 48 dashes, feeds and cuts, in numbers |
| EscPosRender.DecodeEncode | crates/oppa-renderer/src/escpos.rs:229-473 | every writable command is decoded back from its bytes, whatever follows |
| EscPosRender.EncodeElement | crates/oppa-renderer/src/escpos.rs:59-140 | an element's bytes are the encoding of its command sequence |
| EscPosRoundTrip.RenderedLayoutNormalizes | crates/oppa-renderer/src/escpos.rs:59-228 | interpreting a rendered layout succeeds, meets nothing unsupported, and yields exactly the element-wise normal form |
| EscPosRoundTrip.InterpretationIsHomomorphic | crates/oppa-renderer/src/escpos.rs:194-228 | printing two layouts into one stream interprets them side by side |
| EscPosRoundTrip.RoundTripsIffCanonical | crates/oppa-renderer/src/escpos.rs:325-473 | a layout that renders comes back unchanged if and only if every element is canonical |
| EscPosNormalizing.NormalizesIffInterpretable | crates/oppa-renderer/src/escpos.rs:475-503 | unless a newline breaks a one-line row in two, the normal form is reached exactly when texts and wrapped cells have no control characters, one-line rows only carriage returns that do not matter, feeds are positive and images and QR contents are in range |
| EscPosNormalizing.BrokenRowsDependOnWhatFollows | crates/oppa-renderer/src/escpos.rs:475-503 | with such a newline no condition on single elements is exact: one row that reaches its normal form as the last element and not in front of a cut |
| Storage.Repository.InsertReceived | crates/oppa-storage/src/lib.rs:559-660 | the answer by the first case that applies: another key under the identity, other content, duplicate with its state, reused key with its owner, as many unfinished rows as allowed, insertion; only that adds a row, every field of which is stated |
| Storage.Repository.Transition | crates/oppa-storage/src/lib.rs:854-938 | succeeds exactly from the states each change allows and with a new report for this job; then the row changes in every field as stated and carries the time of the change, its report is in the outbox, each other row that stays is as it was, and rows go only in a terminal change, the earliest finished first; otherwise nothing changes and the refusal is the first that applies |
| Storage.Repository.RecoverInterrupted | crates/oppa-storage/src/lib.rs:767-797 | every interrupted row is received again, one recovery more, dated and marked as restarted; all others are as they were; both counts are the real ones |
| Storage.Repository.PendingJobs | crates/oppa-storage/src/lib.rs:662-675 | exactly the received rows, each once, by the time they were received and then by identity |
| Storage.Repository.PendingOutboundStatuses | crates/oppa-storage/src/lib.rs:799-831 | as many outbox rows as there are up to the limit, by creation time and then identity, and everything left out comes later; a zero limit is an error |
| Storage.Repository.AcknowledgeOutboundStatus | crates/oppa-storage/src/lib.rs:833-843 | removes that row only, and says whether it was there |
| Storage.Repository.EnforceTerminalRetention | crates/oppa-storage/src/lib.rs:1052-1101 | one maintenance pass over both tables, with the cascade to the outbox |
| Storage.Repository.Open | crates/oppa-storage/src/lib.rs:382-393 | opening runs one maintenance pass, after which sound rows within the pending limit satisfy the whole invariant |
| StoreProperties.StorageInvariant | crates/oppa-storage/src/lib.rs:559-938 | from an empty database every sequence of calls keeps: keys unique, pending and terminal counts within limits, terminal payloads pruned, outbox rows on terminal rows, attempts against recoveries by state, receipt iff submitted |
| StoreProperties.RetentionDoomsExactlyTheOldest | crates/oppa-storage/src/lib.rs:1065-1101 | the deleted rows are the excess and the oldest by (updated_at, job_id) other than the protected row, and that determines them |
| StoreProperties.RetainKeeps | crates/oppa-storage/src/lib.rs:1052-1101 | retention leaves every other row, every non-terminal row and the protected row, and outbox entries go only with their row |
| StoreProperties.RetentionMeetsTheLimit | crates/oppa-storage/src/lib.rs:1052-1101 | afterwards the terminal rows number the smaller of before and limit, pending rows are untouched |
| StoreEffects.DoomedFinishedFirst | crates/oppa-storage/src/lib.rs:1079-1092 | a row that retention removes is terminal, not protected, and was updated before every other terminal row that stays, or then and has a smaller identity |
| StoreProperties.InsertAnswersAlikeIffNoCollision | crates/oppa-storage/src/lib.rs:572-629 | for any fingerprint function, the pruned and the full store answer a delivery alike exactly when no fingerprint collides |
| StoreProperties.PruningIsInvisible | crates/oppa-storage/src/lib.rs:1052-1127 | with an injective fingerprint, every operation sequence gets the answers of a store that keeps all payloads |
| StoreProperties.RedeliveryIsIdempotent | crates/oppa-storage/src/lib.rs:572-600 | while its row is retained, redelivering a job answers DuplicateJob with the current state and changes nothing |
| ProtocolTheorems.RunKeepsInv | crates/oppa-agent/src/processor.rs:573-938 | every run of deliveries, drains, cancellations, recoveries, reports, storage faults and crashes keeps the invariant, in any interleaving |
| ProtocolTheorems.SpoolerCallsAreBounded | crates/oppa-agent/src/processor.rs:801-883 | an incarnation of a job has at most one spooler call more than recoveries; a retained row at most its retry_attempts, at most recovery_count + 1 |
| ProtocolTheorems.ActiveMeansSubmitting | crates/oppa-agent/src/processor.rs:808-826 | with the active lock free the active jobs are exactly the in-flight one, and its row is Submitting |
| ProtocolTheorems.CancelledMeansNeverAgain | crates/oppa-agent/src/processor.rs:622-660 | when cancel_job answers Cancelled, the row is Cancelled, no call is in flight, and none starts in any continuation |
| ProtocolCancel.CancelAnswers | crates/oppa-agent/src/processor.rs:622-660 | the exact answer in every reachable state: CancellationRequested iff the job is in flight, NotFound iff it has no row, AlreadyTerminal with its state iff it is terminal, Cancelled iff its row is open and not in flight; the database changes for Cancelled only |
| ProtocolCancel.CancellationIsObeyed | crates/oppa-agent/src/processor.rs:622-660 | over every run without a crash or another end of the call: once a cancellation was asked of the job in flight, a refusal or interruption leaves the row Cancelled and adds no report, and only acceptance leaves it Submitted |
| ProtocolCancel.CallsEndAsAsked | crates/oppa-agent/src/processor.rs:842-882 | the converse too: a refused job ends Cancelled without a report exactly if its cancellation was asked for at some moment since the claim, and otherwise Failed with its error and report; acceptance wins |
| ProtocolTimes.TerminalRowsKeepTheirTime | crates/oppa-storage/src/lib.rs:895-915 | over every run a terminal row carries the time at which its incarnation became terminal |
| ProtocolTimes.FinishedRowsNeverChange | crates/oppa-storage/src/lib.rs:869-893 | the row of a finished incarnation never changes again in any continuation: it stays as it is or goes |
| ProtocolTimes.RetentionRemovesTheEarliestFinished | crates/oppa-storage/src/lib.rs:1079-1092 | when a step of any run removes a row, that row was terminal and became so before every row that was terminal already and stays |
| ProtocolTheorems.NoReportIsLost | crates/oppa-agent/src/runtime.rs:398-483 | a retained row committed with a status has exactly that status in the outbox or already accepted by the reporter |
| ProtocolTheorems.ReportsFollowCommits | crates/oppa-agent/src/runtime.rs:430-471 | nothing is reported, or held for reporting, before its transition committed |
| ProtocolTheorems.ReceiptsFollowInserts | crates/oppa-agent/src/runtime.rs:335-395 | no receipt is sent, or held for sending, for a job that was never durable |
| ProtocolTheorems.RecoveredJobsFailForGood | crates/oppa-agent/src/processor.rs:1151-1163 | a row recovered at least once is only failed with retryable = false |
| ProtocolTheorems.DocumentOfIncarnation | crates/oppa-agent/src/processor.rs:662-711 | on every run at all: the spooler gets the claimed row's own document if the drain read that incarnation of the row |
| ProtocolFlow.SubmittedDocumentIsTheRows | crates/oppa-agent/src/runtime.rs:335-395 | while deliveries wait for the flow lock, the spooler always gets the claimed row's own document, whatever is cancelled, evicted, recovered, faulty or lost in a crash |
| ProtocolFlow.RecoveryIsMarkedExactly | crates/oppa-agent/src/processor.rs:1151-1163 | under the flow lock a failed row says that its recovery is uncertain if and only if it was recovered |
| ProtocolStaleness.StaleDocumentCanBeSubmitted | crates/oppa-agent/src/runtime.rs:260-263 | for every retention limit, a run that drives the processor without the lock and claims a job with a document that is no longer in the table |
| ProtocolSteps.ClaimKeepsInv | crates/oppa-agent/src/processor.rs:808-826 | the claim region keeps the invariant on success, skip, abort and fault |
| ProtocolSteps.FinishCallKeepsInv | crates/oppa-agent/src/processor.rs:842-882 | the commit region keeps the invariant for every spooler answer, also when the commit fails |
| ProtocolSteps.FailEarlyKeepsInv | crates/oppa-agent/src/processor.rs:885-938 | an early failure keeps the invariant, also when the row has changed under the drain |
| ProtocolSteps.RecoverKeepsInv | crates/oppa-agent/src/processor.rs:605-614 | recovery under the drain lock keeps the invariant |
| ProtocolSteps.AckKeepsReports | crates/oppa-agent/src/runtime.rs:473-483 | acknowledging removes only the delivered report itself |
| Processor.RecoveryAware | crates/oppa-agent/src/processor.rs:1151-1163 | after a recovery the failure says so and is not retryable; without one it is the failure itself |
| JobProcessing.JobProcessor.ReceivePrintJob | crates/oppa-agent/src/processor.rs:403-464 | is one protocol step; a receipt is made for a new row and for an exact redelivery, not for a reused key or a refusal |
| JobProcessing.JobProcessor.Claim | crates/oppa-agent/src/processor.rs:808-826 | the first lock region of submit is one protocol step: a received row is claimed and its token registered, any other row is skipped with its state, a missing one is an error; nothing else changes |
| JobProcessing.JobProcessor.Finish | crates/oppa-agent/src/processor.rs:842-882 | the second lock region is one protocol step that never fails: state, receipt, error, report and answer for each spooler answer, with and without a cancellation |
| JobProcessing.JobProcessor.PersistFailure | crates/oppa-agent/src/processor.rs:885-938 | both failure paths are one protocol step: an open row is failed with its error, and its report is stored unless the payload could not be read back |
| JobProcessing.JobProcessor.CancelJob | crates/oppa-agent/src/processor.rs:622-660 | is one protocol step; each answer has its exact condition on the active map and the row; the token of the call in flight is set, or the row cancelled, or nothing changes |
| JobProcessing.JobProcessor.RecoverInterrupted | crates/oppa-agent/src/processor.rs:605-614 | is one protocol step that restarts exactly the interrupted rows; both counts are exact |
| JobProcessing.JobProcessor.ProcessPending | crates/oppa-agent/src/processor.rs:662-671 | an undisturbed drain never aborts: every pending job, oldest first, gets exactly the outcome its preparation and its one spooler call determine, and none is left received |
| Runtime.Agent.ReplayOutboundReports | crates/oppa-agent/src/runtime.rs:398-428 | across 256-row batches, the rows by creation time and identity go out once each, in order, and are removed, up to the first that holds no terminal status of its own job under its own identity, or is refused; that one is the error, the rest is untouched, and success empties the outbox and answers its size |
| Runtime.Agent.ReportOutcomes | crates/oppa-agent/src/runtime.rs:446-454 | reports and removes in order up to the first refusal |
| Runtime.Agent.ReportAndAcknowledge | crates/oppa-agent/src/runtime.rs:473-483 | a row goes only after its report was accepted |
| Runtime.OrderOfTheRest | crates/oppa-storage/src/lib.rs:810-816 | taking the first rows out leaves the rest in the same (created_at, message_id) order |
| Runtime.ListedOnce | crates/oppa-agent/src/runtime.rs:398-428 | no row is listed twice in a replay |
| RuntimeTheorems.OutboxAlwaysValidates | crates/oppa-agent/src/runtime.rs:486-503 | in every reachable state each outbox row passes the replay's validation |
| AgentFlows.Agent.Recover | crates/oppa-agent/src/runtime.rs:379-388 | with a reporter that accepts, an undisturbed restart leaves no row pending, whatever was interrupted; every such row has exactly the outcome its preparation and one spooler call determine, and its receipt and report have gone out |
| AgentFlows.Agent.ProcessPending | crates/oppa-agent/src/runtime.rs:359-366 | receipts, one drain and its reports, in that order; a refused message stops the flow |
| AgentFlows.Agent.HandlePrintJob | crates/oppa-agent/src/runtime.rs:335-355 | the receipt precedes the processing; a redelivery or reused key changes no row and starts no drain; a refused receipt leaves the new row waiting |
| Raster.MonoCanvas.FillRect | crates/oppa-renderer/src/page.rs:796-804 | blackens exactly the rectangle clipped to the canvas; padding stays clear |
| Raster.MonoCanvas.BlitReceiptImage | crates/oppa-renderer/src/page.rs:806-837 | when the target ends inside the canvas width, blackens exactly the pixels of the black samples |
| Raster.SpillsIntoNextRow | crates/oppa-renderer/src/page.rs:761-766 | past the canvas width a pixel is one of the next row, which is why the blit needs that condition |
| Raster.OnePixelSet | crates/oppa-renderer/src/page.rs:761-766 | setting a packed bit turns on that pixel and no other |
| Raster.BlackIsMask | crates/oppa-renderer/src/page.rs:748-766 | pixel (x, y) is bit 0x80 >> x % 8 of byte y * stride + x / 8 |
| Raster.PageIsValidIff | crates/oppa-renderer/src/lib.rs:149-183 | a page is valid exactly if its dimensions and resolutions are positive and its buffer holds the rows of its format, each in 32-bit range |
| Raster.CropPageHeight | crates/oppa-renderer/src/page.rs:689-706 | fails exactly for height zero; otherwise a valid page with the same pixels in the kept rows and nothing below |
| Raster.MakeTopDownDib | crates/oppa-windows-print/src/gdi.rs:205-253 | bit by bit of the buffers: in rows of whole 32-bit words exactly the bits are set whose pixel is set in a one-bit page, below 128 in a gray one, or in colour has a 16-bit luminance over white below 128; no padding bit is |
| Raster.OpaqueShowsItsLuminanceIffDark | crates/oppa-windows-print/src/gdi.rs:233-243 | the exact condition on colours: an opaque one comes out as its luminance says if and only if it is darker than the middle |
| Raster.OpaquePagesPrintSolidBlack | crates/oppa-windows-print/src/gdi.rs:226-244 | so an RGB page without transparency becomes black in every pixel, white ones included |
| ReceiptPreview.Preview.RenderElements | crates/oppa-renderer/src/page.rs:328-514 | the row after the last element, or the error; exactly the pixels of the elements turn black, and nothing is erased |
| ReceiptPreview.EstimateLayoutHeight | crates/oppa-renderer/src/page.rs:516-572 | the accumulated estimate, or the first encoding error |
| ReceiptPreview.RenderLayoutReceipt | crates/oppa-renderer/src/page.rs:274-287 | outcome and size as specified; the page is valid and its black pixels are exactly those of the layout: cropping to the drawn height loses none |
| ReceiptInk.TextPixels | crates/oppa-renderer/src/page.rs:596-640 | a pixel of a line of text is black exactly if it falls in a set bit of the font's glyph for the character of its cell, at the line's alignment and scale, or for bold right of such a dot |
| ReceiptInk.LayoutWithin | crates/oppa-renderer/src/page.rs:328-514 | the ink of a layout stays between its first row and the row after its last element |
| ReceiptCodes.TextElementPixels | crates/oppa-renderer/src/page.rs:340-363 | the pixels of a text are those of its wrapped lines, each nine glyph dots below the one before |
| ReceiptCodes.RowElementPixels | crates/oppa-renderer/src/page.rs:364-404 | the pixels of a row are those of its cells' lines, flush left and flush right |
| ReceiptCodes.QrElementPixels | crates/oppa-renderer/src/page.rs:429-458 | a pixel of a QR code is black exactly if the module it falls in, four inside the quiet zone, is dark |
| ReceiptCodes.BarcodeElementPixels | crates/oppa-renderer/src/page.rs:459-501 | a pixel of a barcode is black exactly if the bar it falls in is dark, or in the readable code below |
| ReceiptCodes.MiddleIsCentred | crates/oppa-renderer/src/page.rs:441-480 | codes stand in the middle of the receipt, up to one dot |
| ReceiptGeometry.LineMargins | crates/oppa-renderer/src/page.rs:606-614 | lines stand flush left, centred up to one dot, or flush right; one that is too wide starts at the left edge |
| ReceiptGeometry.NearestDots | crates/oppa-renderer/src/page.rs:661-677 | a length in millimetres is the nearest number of dots |
| ReceiptGeometry.ColumnsFit | crates/oppa-renderer/src/page.rs:334-338 | as many columns of eight glyph dots as fit |
| ReceiptGeometry.CellsShareColumns | crates/oppa-renderer/src/page.rs:365-369 | the left cell has three fifths of the columns, the right one the rest behind a blank |
| ReceiptGeometry.FitsInProportion | crates/oppa-renderer/src/page.rs:643-659 | an image that fits keeps its size; any other is as large as fits, and its other side keeps the proportion to the nearest dot |
| ReceiptGeometry.SamplesFallInto | crates/oppa-renderer/src/page.rs:815-825 | each target pixel shows the source pixel it falls into |
| ReceiptGeometry.QrDotIsLargest | crates/oppa-renderer/src/page.rs:433-439 | QR dots are as large as the nominal size and the receipt's width allow |
| ReceiptGeometry.BarsAreWidest | crates/oppa-renderer/src/page.rs:468-477 | bars are as wide as the receipt without its margins allows, up to one dot per hundred of resolution |
| ReceiptMeasures.EstimateCovers | crates/oppa-renderer/src/page.rs:516-572 | the estimate reserves enough for an element that is no row exactly when its image or barcode is at least one dot high |
| ReceiptMeasures.RightCharsAgree | crates/oppa-renderer/src/page.rs:365-369 | the drawn and the estimated right column agree except at multiples of five, where the drawing is one narrower |
| ReceiptMeasures.NarrowRowsNeedMore | crates/oppa-renderer/src/page.rs:530-536 | at a multiple of five the drawing needs at least the lines estimated, exactly when the row has a line at all |
| ReceiptMeasures.CostsAtMostOne | crates/oppa-renderer/src/page.rs:328-572 | an image or barcode that vanishes at the resolution takes at most one row more than was reserved, everything else none |
| ReceiptFits.PreviewNeverOverflows | crates/oppa-renderer/src/page.rs:274-287 | with columns that are no multiple of five and at most four glyph scales of vanishing elements, in any mix, the preview never overflows its estimate |
| ReceiptFits.PreviewsFitIffFewVanish | crates/oppa-renderer/src/page.rs:274-287 | the exact allowance at every resolution and for every encoder: all layouts with at most k vanishing elements fit if and only if k is at most four glyph scales and the columns are no multiple of five |
| ReceiptFits.BarcodePreviewsFitIffFewAreFlat | crates/oppa-renderer/src/page.rs:556-566 | the same for layouts without images, whenever one barcode can be drawn at all |
| ReceiptFits.At203EightMayVanish | crates/oppa-renderer/src/page.rs:274-287 | at 203 DPI, on both widths, that allowance is eight |
| ReceiptFits.VanishingAt203 | crates/oppa-renderer/src/page.rs:556-566 | which elements vanish there: barcodes of height zero and, of the images in that resolution, the empty ones |
| ReceiptFits.ColumnsAt102 | crates/oppa-renderer/src/page.rs:661-677 | a supported resolution with a multiple of five columns: 40 at 102 DPI on 80 mm |
| ReceiptMeasures.FitStaysInside | crates/oppa-renderer/src/page.rs:643-659 | scaling to fit exceeds neither the bounds nor the source |
| Base64Url.DecodeBase64Url | packages/protocol/src/codec.ts:378-407 | the decoding loop, with the accumulator below 2^bits throughout |
| Base64Url.EncodeBase64Url | packages/protocol/src/codec.ts:409-427 | the encoding loops |
| Base64Url.DecodeInvertsEncode | packages/protocol/src/codec.ts:378-427 | a string decodes to a value if and only if the value is not empty and encodes to that string: canonicity of RFC 4648, section 3.5 |
| Base64Url.DecodedSize | packages/protocol/src/codec.ts:378-407 | n digits decode to exactly floor(6 n / 8) bytes |
| Base64Url.RestOfTable2 | packages/protocol/src/codec.ts:386-411 | the end of the alphabet is that of RFC 4648, table 2: the ten digits, minus and underscore; `CapitalsOfTable2` and `SmallLettersOfTable2` give its beginning |
| Base64Url.EncodesGroups | packages/protocol/src/codec.ts:409-427 | three bytes become four digits of six bits each, whatever follows; `EncodesOneByte` and `EncodesTwoBytes` say what becomes of one or two bytes left over, so encoding is determined |
| Base64Url.DecodingErrors | packages/protocol/src/codec.ts:378-407 | which error: a foreign character or a length no encoding has, or else trailing bits, exactly when the string encodes nothing |
| Base64Url.IsUnpaddedBase64Url | packages/protocol/src/codec.ts:367-377 | true exactly for the encodings of non-empty byte strings |
| PageRanges.ResolvePageSelection | crates/oppa-renderer/src/pdf.rs:149-177 | succeeds exactly for a well-formed expression whose ends are within the document; the result is non-empty, ascending and exactly the union of the ranges; otherwise the error is the syntax problem or names the first page beyond the document |
| PageRanges.SelectionIsUnique | crates/oppa-renderer/src/pdf.rs:149-177 | those properties determine the selection |
| PageRanges.SamePartsSameSelection | crates/oppa-renderer/src/pdf.rs:149-177 | reordering or repeating parts does not change the selection |
| PageRanges.ValidatePageRanges | crates/oppa-protocol/src/pdf.rs:258-279 | accepts exactly the well-formed expressions |
| PageRanges.WellFormedIff | crates/oppa-protocol/src/pdf.rs:258-300 | the grammar: one to 256 bytes of page numbers and ascending spans separated by commas, each number of one to five digits and positive; and the ranges read are the ones written |
| PageRanges.WrittenRangesReadBack | crates/oppa-protocol/src/pdf.rs:258-300 | every list of ascending ranges below 100000 that fits the length limit is read back as it was written |
| Transport.WebSocketTransport.Connect | crates/oppa-transport/src/lib.rs:419-451 | a new connection starts without acceptance, hello or anything written; a second connect and failures leave everything as it was |
| Transport.WebSocketTransport.SendAuthenticationResponse | crates/oppa-transport/src/lib.rs:453-478 | allowed only on a connection that is not accepted yet; the error for every other case |
| Transport.WebSocketTransport.ReceiveAuthentication | crates/oppa-transport/src/lib.rs:480-513 | the answer for every frame; only an acceptance authenticates, only a loss disconnects |
| Transport.WebSocketTransport.Buffer | crates/oppa-transport/src/lib.rs:288-300 | takes encodable non-hello messages up to the capacity, at the end; the error for every other case |
| Transport.WebSocketTransport.FlushBuffer | crates/oppa-transport/src/lib.rs:355-361 | writes the buffer from the front in order as far as the connection takes it; exactly the unwritten messages stay |
| Transport.WebSocketTransport.Send | crates/oppa-transport/src/lib.rs:515-541 | the answer in every case; a refusal changes nothing; otherwise the message is written, behind a hello the buffer in order as far as it goes, what was not written stays, and any error ends the connection |
| Transport.WebSocketTransport.Receive | crates/oppa-transport/src/lib.rs:543-558 | the answer in every case; a lost or unreadable message ends the connection |
| Transport.WebSocketTransport.Close | crates/oppa-transport/src/lib.rs:560-577 | closes whatever the peer does, and says whether it answered |
| Transport.HelloIsFirstAndUnique | crates/oppa-transport/src/lib.rs:515-541 | on every connection of every sequence of operations the hello is the first message, the only hello, and after the acceptance |
| Transport.NothingIsSentBeforeTheHello | crates/oppa-transport/src/lib.rs:515-541 | a connection that sent anything has its hello first, and what it wrote from the buffer is exactly the block right behind it |
| Transport.BufferIsWrittenOnceInOrder | crates/oppa-transport/src/lib.rs:355-361 | over all operation sequences the messages ever buffered are those the connections wrote from the buffer, connection by connection, followed by those still in it: none lost, repeated or overtaken |
| Planner.SelectProtocolVersion | crates/oppa-protocol/src/negotiation.rs:22-32 | the highest version in both lists, none exactly when they share none |
| Planner.ProjectionFitsTheSession | crates/oppa-protocol/src/negotiation.rs:38-50 | a projected inventory is valid for the negotiated version, and unchanged exactly when it was valid before |
| Planner.WithoutExtended | crates/oppa-protocol/src/printer.rs:147-157 | drops exactly the extended capabilities |
| Planner.RequiredVersionIs | crates/oppa-protocol/src/message.rs:95-145 | an inventory or a change needs the extended protocol exactly if one of its printers reports formats, papers, custom paper or print options |
| Planner.ConnectToExtended | crates/oppa-protocol/src/negotiation.rs:88-147 | one attempt against a server that takes the extended protocol: it is asked unless the record is current, and then forgotten as base-only |
| Planner.OfferedAgainIffDayOver | crates/oppa-protocol/src/negotiation.rs:17-147 | after an answered fallback the next attempt makes the extended offer exactly if 24 hours have passed |
| Planner.ConnectToBaseOnly | crates/oppa-protocol/src/negotiation.rs:88-147 | one attempt against a base-only server: the extended offer is made unless a record is current, and an answered fallback is remembered for 24 hours, up to the end of the clock |
| Planner.RejectionsAreADayApart | crates/oppa-protocol/src/negotiation.rs:17-147 | after an answered fallback no attempt of any run repeats the rejected offer within 24 hours, up to the end of the 64-bit clock |

## Left out

- SQLite, SQL text, migrations, JSON and field validators (key lengths, payload size bounds): tables are maps,
  payloads are opaque documents with an equality, the fingerprint is any function, injective only where a lemma
  says so.
- A second process on the same database and dropped futures: a task runs to its next lock point or the process
  crashes.
- The in-memory event handle, the pending counter shown to hosts, and local test submissions, which touch no
  durable state.
- Printer resolution, rendering and document fetching inside a drain: their result is a function of the stored job
  in `Processor.Environment`, an arbitrary choice in the protocol.
- The outbox lock: reporting tasks interleave freely in the protocol. Reports within one task go out in order only
  in `Runtime`.
- Storage faults inside the repository object: they are events of the protocol, where a faulting call changes
  nothing.
- JobProcessing.JobProcessor.ProcessPending: covers a drain that nothing disturbs, and so do the flows in `AgentFlows`;
  disturbed drains are runs of the protocol.
- Text is ASCII of one column per character. Grapheme clusters, wide characters and the remaining Unicode
  whitespace are not modelled; the ESC/POS path rejects other text before laying it out.
- EscPosNormalizing.NormalizesIffInterpretable: excludes rows that fit one line and hold a newline. What becomes of
  them depends on the elements that follow, as `BrokenRowsDependOnWhatFollows` shows.
- Image decoding, QR and barcode encoding and the font: uninterpreted functions of their input. `fit_dimensions`
  uses exact rationals instead of 64-bit floats.
- 32-bit overflow of row positions in the preview: positions are unbounded. The canvas area limit keeps every
  canvas below 42 million rows, so the estimate cannot reach the saturation point and be accepted.
- Raster.MonoCanvas.BlitReceiptImage: says nothing when the target ends outside the canvas width, and computes
  source offsets without 32-bit wrap-around, which valid images cannot reach.
- Grayscale and RGB branches of the PNG previews, and physical page layout.
- PDF parsing, scaling and rasterization beyond page selection.
- TLS, sockets, timeouts, ping frames and reconnect backoff: each operation takes their outcome as a parameter.
- Server messages after authentication, and the agent's own message bodies beyond identity, kind and job.
- Discovery, agent lifecycle, spooler drivers, virtual printer history, the SDK, the website and the example server.
