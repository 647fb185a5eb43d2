# Verified model of the d2b clipboard daemon, terminal session and helpers

This project models the parts of d2b whose correctness depends on state kept over time, and proves what they keep.

* **The agent terminal** (`labs/d2b-agentterm`): streaming UTF-8 decoding (`utf8.dfy`, over the theory of incremental parsers in
  `incremental.dfy`), the private-mode scanner (`modes.dfy`), the line diff (`diff.dfy`), the bounded history (`rings.dfy`,
  `ring_log.dfy`), the session and its change reports (`session.dfy`, `session_runs.dfy`, `session_reports.dfy`), and the byte pump
  (`pump.dfy`).
* **The clipboard daemon** (`packages/d2b-clipd`): helper permits (`permits.dfy`), bridge streams with passed descriptors
  (`bridge_stream.dfy`), MIME policy (`policy.dfy`, `text.dfy`), bounded reads (`materialize.dfy`), clipboard history
  (`clip_history.dfy`), picker supervision (`picker.dfy`), fallback arming (`fallback.dfy`), the audit queue (`audit.dfy`), and the
  event loop: its steps on values (`daemon.dfy`), what every run keeps (`daemon_log.dfy`, `daemon_content.dfy`, `daemon_state.dfy`,
  `daemon_runs.dfy`), how copies reach it (`daemon_arrivals.dfy`), when it writes (`daemon_serving.dfy`), when it asks and what it
  offers (`daemon_offers.dfy`, `daemon_asks.dfy`), what it arms (`daemon_arming.dfy`), and its handlers updating state in place
  (`event_loop.dfy`).
* **Smaller protocols**: forwarded input frames of wlattach (`input_stream.dfy`, `input_sender.dfy`), the guest authentication
  transcript (`guest_auth.dfy`) and the activation helper's group migration (`migration.dfy`).

Objects that the source updates in place are classes whose methods are proved against functions on values; the theorems are about
those functions and quantify over every run. Clocks, read and write results, process spawns, handshakes, helper permits, focus
queries, emulator replies and JSON parsing come in as parameters or events. The data-control device is part of the daemon's state:
it is bound once and never lost (`packages/d2b-clipd/src/wayland.rs`, lines 180-203), so publishing is refused only before that.

What the model shows about the code that is not evident from it:

* The pump's last write to the screen is a single write that may be short, although the comment above it says the screen ends up
  matching the emulator. `Pump.Serve` states when it does: iff that write accepts everything queued.
* The audit queue is drained in the same step that fills it, so the refusal for a full queue cannot happen in the daemon.
* A published selection is never un-marked as an echo, so host announcements are ignored for as long as anything is published:
  until the compositor cancels it, a direct paste takes it, or a later publication fails to flush.
* History ids repeat once the 64-bit counter is saturated and two host rows are kept; `ClipHistory.IdsRepeatIff` is exact.
* When a write of forwarded input times out inside a frame, later frames follow on the same stream and the receiver is out of step;
  `InputSender.InStepIff` states exactly when the round trip survives.

## Model

| member | source | states |
|---|---|---|
| `Utf8.FromUtf8` | labs/d2b-agentterm/src/utf8.rs:41-75 | The valid prefix, its length and the error length are such that decoding the whole is that text, one replacement for the error if any, and the decoding of what follows; with no error length the tail is a cut-off character of at most 3 bytes. |
| `Utf8.Utf8Decoder.Feed` | labs/d2b-agentterm/src/utf8.rs:29-79 | The text returned and the tail carried are the decoding of the old tail followed by the input. |
| `Utf8.Utf8Decoder.Flush` | labs/d2b-agentterm/src/utf8.rs:85-92 | Gives one U+FFFD for a cut-off tail, nothing otherwise, and leaves no tail. |
| `Utf8.DecoderIgnoresReadBoundaries` | labs/d2b-agentterm/src/utf8.rs:29-92 | For every byte stream and every split into feeds, feeds plus flush are one-shot lossy decoding; the carried tail is a proper prefix of a well-formed character of at most 3 bytes, so the length fallback is unreachable. |
| `Utf8.DecodeIsLossy` | labs/d2b-agentterm/src/utf8.rs:29-92 | Streaming decoding plus flush equals the reference that replaces each maximal ill-formed subpart (section 3.9 of the Unicode Standard) once. |
| `Utf8.CutIsExtends` | labs/d2b-agentterm/src/utf8.rs:61-72 | Input counts as cut short exactly when some further bytes would complete a character of the grammar in section 4 of RFC 3629. |
| `Utf8.BadIsMaximalSubpart` | labs/d2b-agentterm/src/utf8.rs:55-60 | The error length is that of the maximal ill-formed subpart. |
| `Utf8.TextSurvives` | labs/d2b-agentterm/src/utf8.rs:29-92 | Encoded text decodes to itself, with nothing carried over. |
| `Utf8.ExpansionBound` | labs/d2b-agentterm/src/utf8.rs:29-79 | Decoded text has at most three bytes for each byte consumed. |
| `Modes.ModeScanner.Feed` | labs/d2b-agentterm/src/modes.rs:71-75 | The new scanner state is the scan of the text from the old state. |
| `Modes.ModeScanner.Step` | labs/d2b-agentterm/src/modes.rs:77-138 | One character takes the scanner to its specified successor state, field by field. |
| `Modes.ScanIgnoresBoundaries` | labs/d2b-agentterm/src/modes.rs:71-152 | Scanning pieces one after another is scanning their concatenation, from every state. |
| `Modes.ScanNumber` | labs/d2b-agentterm/src/modes.rs:109-118 | Digit-by-digit saturation gives min(decimal value, 65535) for digit strings of any length. |
| `Modes.SequenceSetsModes` | labs/d2b-agentterm/src/modes.rs:77-152 | Any private-mode sequence (section 5.4 of ECMA-48), however long its digit strings and however split, returns to ground; the alternate screen is then on or off as the sequence says iff the decimal value of some parameter is 47, 1047 or 1049, bracketed paste iff some is 2004, and each is as before otherwise. |
| `Modes.OnlySequencesChangeModes` | labs/d2b-agentterm/src/modes.rs:77-152 | After any text, a character changes the modes only by completing such a sequence, and then by exactly the effect of its parameter values. |
| `Diff.LcsTable` | labs/d2b-agentterm/src/delta.rs:199-217 | Every cell of the table is the length of a longest common subsequence of the two suffixes. |
| `Diff.DiffLines` | labs/d2b-agentterm/src/delta.rs:199-258 | The operations pushed by the two-index walk are the specified script. |
| `Diff.LcsIsUpperBound` | labs/d2b-agentterm/src/delta.rs:199-217 | No common subsequence is longer than the table entry. |
| `Diff.LcsIsAttained` | labs/d2b-agentterm/src/delta.rs:199-217 | A common subsequence of that length exists. |
| `Diff.AnyPatchIsAsLong` | labs/d2b-agentterm/src/delta.rs:199-258 | Any script that patches the old lines into some result has at least n + m - 2 lcs operations. |
| `Diff.DiffIsMinimalEditScript` | labs/d2b-agentterm/src/delta.rs:199-258 | The diff patches old into new, has increasing indices and true texts, has exactly n + m - 2 lcs operations, is shortest among all scripts, and is empty iff nothing changed. |
| `Diff.RemovalsComeFirst` | labs/d2b-agentterm/src/delta.rs:219-258 | Where the next lines differ, a removal comes first whenever some shortest script can go on after one. |
| `Rings.DropOldest` | labs/d2b-agentterm/src/history.rs:152-155 | The pop loop keeps the newest records up to the capacity and reports whether it dropped any. |
| `Rings.SortDedup` | labs/d2b-agentterm/src/history.rs:269-280 | Strictly ascending, with exactly the given rows. |
| `Rings.History.RecordDirty` | labs/d2b-agentterm/src/history.rs:147-156 | The whole new ring state, empty row sets ignored. |
| `Rings.History.RecordOutput` | labs/d2b-agentterm/src/history.rs:163-181 | The whole new ring state under the count and byte caps. |
| `Rings.History.RecordScrollback` | labs/d2b-agentterm/src/history.rs:184-192 | The whole new ring state. |
| `Rings.History.RecordCursor` | labs/d2b-agentterm/src/history.rs:248-258 | The whole new ring state, repeats of the last position ignored. |
| `Rings.History.MaybeCheckpoint` | labs/d2b-agentterm/src/history.rs:199-228 | The whole new ring state; taken when forced, first, or an interval late. |
| `RingLog.RingsAreLongestSuffixes` | labs/d2b-agentterm/src/history.rs:147-258 | Over every run of recordings and all limits, each ring is the longest suffix of the unbounded log within its caps, the byte count is exact, and the eviction flag is set iff some record was dropped. |
| `RingLog.SinceMatches` | labs/d2b-agentterm/src/history.rs:261-299 | A since-query on a ring equals the query on the log iff the newest dropped record is older than the cutoff. |
| `RingLog.AtOrBeforeMatches` | labs/d2b-agentterm/src/history.rs:235-240 | A retained checkpoint found at or before a cutoff is the one the full log would give. |
| `RingLog.QueriesMatchTheLog` | labs/d2b-agentterm/src/history.rs:235-310 | Both of these for every ring after every timely run, and all rings equal their logs when nothing was evicted. |
| `Session.Session.constructor` | labs/d2b-agentterm/src/session.rs:31-55 | A new session has its initial state and a first forced checkpoint. |
| `Session.Session.FeedOutput` | labs/d2b-agentterm/src/session.rs:103-108 | The whole new session state after a read. |
| `Session.Session.FinishOutput` | labs/d2b-agentterm/src/session.rs:112-117 | The whole new session state after the stream ends. |
| `Session.Session.IngestText` | labs/d2b-agentterm/src/session.rs:119-158 | Scanner, emulator and rings after decoded text, with a forced checkpoint on a net buffer switch. |
| `Session.Session.CheckpointNow` | labs/d2b-agentterm/src/session.rs:163-168 | The whole new session state after a tick. |
| `Session.Session.ResizeTo` | labs/d2b-agentterm/src/session.rs:171-198 | The whole new session state after a resize. |
| `Session.Session.DeltaSince` | labs/d2b-agentterm/src/session.rs:219-357 | The report, field by field, as specified from the rings and the current view. |
| `SessionRuns.EmptyIffQuiet` | labs/d2b-agentterm/src/session.rs:219-270 | A report is empty exactly when the nothing-happened short cut was taken. |
| `SessionRuns.EmptyReportMeansUnchanged` | labs/d2b-agentterm/src/session.rs:219-270 | Over every run with a non-decreasing clock and reads within the pump buffer, an empty report means view and alternate flag were the same after every event since now minus the window (since the start of the session where the clock cannot go back that far), whatever was evicted. |
| `SessionRuns.SwitchReportIsExact` | labs/d2b-agentterm/src/history.rs:303-310 | Over every run, with a retained checkpoint at or before the cutoff, a switch is reported iff the flag after the last event at or before the cutoff differs from the flag now. |
| `SessionRuns.CheckpointWasShown` | labs/d2b-agentterm/src/session.rs:119-168 | Every retained checkpoint is a screen the session showed at that time. |
| `SessionRuns.DiffIsAgainstAShownScreen` | labs/d2b-agentterm/src/session.rs:271-357 | A non-empty report carries a shortest edit script from a screen really shown, of the reported age, to the current one; it is the newest checkpoint at or before the window start, or the oldest one where none is held and the report says it is clamped. |
| `SessionRuns.SessionRingsMatchTheLog` | labs/d2b-agentterm/src/session.rs:103-198 | In every reachable session state the rings are the longest suffixes of everything recorded. |
| `SessionRuns.EmulatorSeesLossyStream` | labs/d2b-agentterm/src/session.rs:103-117 | The emulator has been given the lossy decoding of every byte read, once the stream has ended. |
| `SessionReports.EmptyIffNothingStirred` | labs/d2b-agentterm/src/session.rs:219-270 | Over every timely run with reads within the pump buffer, whatever was evicted: a report is empty iff no event at or after now minus the window (or the session start) handed text to the emulator or had rows reported as dirty. |
| `SessionReports.ReportCoversTheWindow` | labs/d2b-agentterm/src/session.rs:219-357 | Over every run in which nothing was evicted: output bytes, changed rows and cursor movement are exactly those of the events at or after the window start; on the primary screen a non-empty report appends the lines that scrolled off in the window and then those the diff adds, blank ones left out. |
| `SessionReports.ReportShape` | labs/d2b-agentterm/src/session.rs:225-357 | In every state: the mode follows the alternate flag; on the alternate screen the changed rows still on screen are shown in order with their current text and nothing is appended; on the primary one no rows are shown; content has changed iff a row, a diff line or an appended line says so. |
| `SessionReports.SwitchIsReported` | labs/d2b-agentterm/src/session.rs:337-347 | A report that is neither empty nor clamped announces a switch iff the flag after the last event at or before the window start differs from the flag now. |
| `SessionReports.NonBlankIsFilter` | labs/d2b-agentterm/src/session.rs:316-333 | Exactly the lines with some character that is not white space are kept, one by one and in order. |
| `SessionReports.ShowsLastReply` | labs/d2b-agentterm/src/session.rs:119-198 | The view is the one reported after the last event that made the emulator draw, and the size that of the last resize. |
| `SessionReports.QueriesCoverTheWindow` | labs/d2b-agentterm/src/history.rs:248-299 | Where nothing was evicted the four since-queries answer exactly with the text, scrolled-off lines, dirty rows and cursor movement of the events at or after the cutoff. |
| `SessionReports.EmptyReportIsBlank` | labs/d2b-agentterm/src/session.rs:247-270 | An empty report lists and announces nothing; its age is that of the newest checkpoint at or before the window start, absent iff none is held. |
| `Pump.Pump.Enqueue` | labs/d2b-agentterm/src/pump.rs:158-166 | Keystrokes and agent input join one queue behind what was sent and queued. |
| `Pump.Pump.DrainChild` | labs/d2b-agentterm/src/pump.rs:178-188 | Exactly the accepted prefix moves from the queue to the child. |
| `Pump.Pump.DrainScreen` | labs/d2b-agentterm/src/pump.rs:190-199 | Exactly the accepted prefix moves from the queue to the screen. |
| `Pump.Pump.ForkOutput` | labs/d2b-agentterm/src/pump.rs:138-149 | A read goes verbatim to the screen queue and to the session. |
| `Pump.Pump.ApplyResize` | labs/d2b-agentterm/src/pump.rs:255-267 | The session is resized only if the terminal accepted the size. |
| `Pump.EmulatorAgreesWithScreen` | labs/d2b-agentterm/src/pump.rs:138-149 | The text given to the emulator is the lossy decoding of the bytes forked to the screen. |
| `Pump.Serve` | labs/d2b-agentterm/src/pump.rs:134-236 | Over every schedule: what the child accepted and what is still queued for it are together the whole chunks in arrival order, and how much it accepted is what its writes took; the screen gets a prefix of the child output, all of it iff the last write took everything queued; the session is fed exactly those reads. |
| `Pump.RunsUntilStopped` | labs/d2b-agentterm/src/pump.rs:134-236 | The loop runs exactly up to the first failed call, empty read of the child or end of the keystrokes. |
| `Pump.SizeFollowsTheKernel` | labs/d2b-agentterm/src/pump.rs:255-267 | Over every schedule the session has the size the kernel last accepted. |
| `Pump.TickKeepsCheckpointsFresh` | labs/d2b-agentterm/src/history.rs:199-228 | After a tick the newest checkpoint is less than 500 ms old. |
| `Pump.TicksReachTheSession` | labs/d2b-agentterm/src/pump.rs:134-236 | Over every schedule, once the loop has handled a tick the newest checkpoint of the session is less than 500 ms old. |
| `InputStream.Drain` | labs/wlattach/src/main.rs:337-368 | One pass yields exactly the frames parsed off old buffer plus arrivals, keeps the rest, and stays alive iff no end and no oversized length. |
| `InputStream.TakeFrames` | labs/wlattach/src/main.rs:351-366 | The inner loop is the frame parser: frames, rest and liveness. |
| `InputStream.InputHost.Poll` | labs/wlattach/src/main.rs:337-368 | Keeps exactly the connections still alive, with their new buffers, and delivers the decoded events in order. |
| `InputStream.ReceiverYieldsWhatWasSent` | labs/wlattach/src/main.rs:632-640 | For all bodies and every split of the sent stream: the bodies before the first one over 4096 bytes come out, in order, and no other; the stream is dropped iff there is one, and otherwise nothing is left over. |
| `InputStream.PartialStream` | labs/wlattach/src/main.rs:337-368 | At every moment the frames out and the incomplete rest are exactly what has arrived. |
| `InputStream.LastPolled` | labs/wlattach/src/main.rs:337-368 | Each connection is served by itself and in order: one more connection adds to survivors and frames exactly what it alone would come to. |
| `InputStream.TurnsJoin` | labs/wlattach/src/main.rs:337-368 | Over two turns a surviving connection yields the frames of everything it was sent, however it is cut between the turns, and it survives the second iff no frame is too long and the stream has not ended. |
| `InputStream.FrameLayout` | labs/wlattach/src/main.rs:632-640 | A frame is the body length in four little-endian bytes and then the body. |
| `InputSender.ForwardInput` | labs/wlattach/src/main.rs:628-641 | A batch goes out frame by frame until a write is cut short; the wire holds exactly the accepted bytes and the rest of the batch is discarded. |
| `InputSender.InStepIff` | labs/wlattach/src/main.rs:632-640 | For every sequence of write results: the receiver gets exactly the completed frames, and whatever is sent later, under every split of the stream, iff no frame was cut short after its first byte and none is over the limit. |
| `InputSender.TriedUntilCut` | labs/wlattach/src/main.rs:628-641 | The frames of a batch are tried in order up to the first whose write takes fewer bytes than prefix and body have. |
| `GuestAuth.EncodeTranscript` | packages/d2b-contracts/src/guest_auth.rs:67-86 | The encoding is that of the transcript's fields in order, the two optional ones only when present. |
| `GuestAuth.DecodeInvertsEncode` | packages/d2b-contracts/src/guest_auth.rs:67-92 | A decoder recovers every field, presence of the optional ones included. |
| `GuestAuth.EncodeInvertsDecode` | packages/d2b-contracts/src/guest_auth.rs:67-92 | Whatever decodes is the encoding of what it decodes to. |
| `GuestAuth.EncodingIsInjective` | packages/d2b-contracts/src/guest_auth.rs:67-92 | Equal encodings imply equal transcripts. |
| `GuestAuth.TranscriptBytes` | packages/d2b-contracts/src/guest_auth.rs:42-92 | The encoding byte for byte: each field is a tag, a four-byte big-endian length and the value, in tag order; field 2 is host-proof for the host and guest-proof for the guest, in ASCII; the optional fields only when present. |
| `GroupMigration.FileSystem.WalkDir` | nixos-modules/host-activation-helper/src/main.rs:180-265 | Migrating changes exactly the legacy non-symlink entries met; scanning changes nothing and counts them; no error unless a system call fails. |
| `GroupMigration.FileSystem.WalkEntry` | nixos-modules/host-activation-helper/src/main.rs:198-262 | The same for one entry and everything below it. |
| `GroupMigration.FileSystem.ScanForLeftovers` | nixos-modules/host-activation-helper/src/main.rs:325-335 | Counts the remaining legacy entries met, root included, and changes nothing. |
| `GroupMigration.FileSystem.MigrateTree` | nixos-modules/host-activation-helper/src/main.rs:293-310 | Root and tree are migrated; whatever goes wrong, only legacy entries change, to the target group. |
| `GroupMigration.FileSystem.Execute` | nixos-modules/host-activation-helper/src/main.rs:273-323 | Without I/O errors a fail-closed run exits 0 iff no legacy entry remains, locked or not; entries that vanish during the walk are no error and everything met is migrated; with errors it never reports success while the recount sees one. |
| `GroupMigration.LeftoversAfterMigration` | nixos-modules/host-activation-helper/src/main.rs:273-335 | A complete migration leaves no legacy entry iff the target is not itself legacy or there was none. |
| `GroupMigration.EntriesReach` | nixos-modules/host-activation-helper/src/main.rs:180-265 | The entries of a tree are exactly what some path of listings leads to without passing through or ending at a symbolic link. |
| `GroupMigration.SeenReach` | nixos-modules/host-activation-helper/src/main.rs:180-265 | What a walk meets is exactly what some path leads to while no entry on it has vanished and every directory on it can be opened. |
| `Permits.CounterIsLivePermits` | packages/d2b-clipd/src/main.rs:71-97 | Under every interleaving of loads, weak compare-exchanges and releases by any threads, the counter is the number of live permits, at most 16, and never underflows. |
| `Permits.RefusalIsJustified` | packages/d2b-clipd/src/main.rs:81-97 | A thread is refused only if 16 permits were live at once since it last looked. |
| `Permits.UndisturbedAcquires` | packages/d2b-clipd/src/main.rs:71-97 | In every run an undisturbed thread gets a new permit iff fewer than 16 are live and is turned away iff 16 are; a release takes back exactly its permit. |
| `BridgeStream.Stream.RecvFrame` | packages/d2b-clipd/src/main.rs:1424-1485 | For every sequence of receive results: the result, the new buffer and queue and what is left to receive are exactly as specified. |
| `BridgeStream.Stream.Handle` | packages/d2b-clipd/src/main.rs:1357-1393 | Every ready request is served, in order, and the stream is kept only with an incomplete frame; the whole new state for every sequence of receive results. |
| `BridgeStream.CallsAreFold` | packages/d2b-clipd/src/main.rs:1357-1393 | Any number of calls, however the messages fall into them, is one pass over all that was delivered; a kept stream holds no complete line. |
| `BridgeStream.RequestsFollowTheStream` | packages/d2b-clipd/src/main.rs:1424-1639 | For every list of calls and every sequence of receive results: the k-th request is the k-th line received with the k-th descriptor received; a kept stream has served every complete line and holds exactly the rest; it is dropped iff some message is over a limit or completes a line that cannot be served, and then exactly the lines before that are served. |
| `BridgeStream.StreamStaysBounded` | packages/d2b-clipd/src/main.rs:1459-1505 | Over every list of calls each descriptor received is queued, handed to a request or closed; on a live stream at most 64 are queued, at most 4096 bytes buffered, and descriptors never outnumber buffered frames plus a partial one. |
| `BridgeStream.RecvKeepsBounds` | packages/d2b-clipd/src/main.rs:1424-1505 | The same bounds and conservation at whatever point the receive loop returns. |
| `BridgeStream.LinesSpellTheStream` | packages/d2b-clipd/src/main.rs:1424-1485 | The complete lines and the rest spell the stream; each line has one newline, at its end, and the rest has none. |
| `Policy.NormalizeIsIdempotent` | packages/d2b-clipd/src/policy.rs:79-98 | Normalising twice is normalising once, so a normalised name is judged like the original. |
| `Policy.ServedIsAllowed` | packages/d2b-clipd/src/main.rs:1038-1059 | From clean data a payload is served only under an allowed name, and is stored under it, or is stored plain text, or converted HTML. |
| `Policy.ListedIsAllowed` | packages/d2b-clipd/src/policy.rs:79-98 | Every name on the list is allowed as it stands. |
| `Policy.AllowedIff` | packages/d2b-clipd/src/policy.rs:79-98 | A name is allowed iff it spells one of the three bare types, or text/plain and charset=utf-8 with one semicolon between them, in any ASCII letter case and with any white space around the pieces. |
| `Policy.PayloadPrecedence` | packages/d2b-clipd/src/main.rs:1038-1059 | A stored name is served verbatim; plain text is otherwise answered from stored plain text, the UTF-8 form first, and from converted HTML only where neither is stored; an answer exists iff one of these does. |
| `Materialize.ReadFdToVec` | packages/d2b-clipd/src/main.rs:2906-2933 | The read loop has the specified outcome for every sequence of read results. |
| `Materialize.CompleteIff` | packages/d2b-clipd/src/main.rs:2906-2933 | A read completes iff the end is reached without a failure and the content fits the cap, and then it is the whole content. |
| `Materialize.PendingIff` | packages/d2b-clipd/src/main.rs:2906-2933 | A read is still going on iff nothing has ended it, gone wrong, or burst the cap. |
| `ClipHistory.BridgeIdInjective` | packages/d2b-clipd/src/main.rs:1061-1070 | Bridge ids are injective in target and source id. |
| `ClipHistory.HistoryIdInjective` | packages/d2b-clipd/src/main.rs:984-986 | History ids are injective in their number. |
| `ClipHistory.IdsAreDisjoint` | packages/d2b-clipd/src/main.rs:1061-1070 | Bridge ids, history ids and the two reserved ids never coincide. |
| `ClipHistory.ClipboardHistory.Push` | packages/d2b-clipd/src/main.rs:956-991 | The whole new history: ignored if empty, else a fresh number, front, at most 20. |
| `ClipHistory.ClipboardHistory.Upsert` | packages/d2b-clipd/src/main.rs:963-982 | The whole new history: the row with the same id is replaced and moved to the front. |
| `ClipHistory.HistoryStaysCoherent` | packages/d2b-clipd/src/main.rs:955-991 | Over every run with fewer than 2^64 pushes: at most 20 entries, none empty, ids pairwise distinct, and the counter is the number of pushes. |
| `ClipHistory.HistoryIsTheNewest` | packages/d2b-clipd/src/main.rs:955-991 | Over every run the bounded history is exactly the newest twenty entries of the history that never drops anything, replaced rows included. |
| `ClipHistory.CandidatesResolve` | packages/d2b-clipd/src/main.rs:997-1036 | Every candidate of a coherent history resolves by id to data that serves the requested type with the advertised size. |
| `ClipHistory.ServableEntriesAreOffered` | packages/d2b-clipd/src/main.rs:997-1028 | Every entry that can serve the request and is not excluded is offered. |
| `ClipHistory.IdsRepeatIff` | packages/d2b-clipd/src/main.rs:984-991 | Over every run two retained rows share an id iff more than 2^64 - 1 host copies were recorded and at least two host rows are still kept. |
| `ClipHistory.HistoryStaysOrdered` | packages/d2b-clipd/src/main.rs:955-991 | Over every run the retained host rows carry the latest push numbers, newest first, capped at 2^64 - 1, and endpoint rows have distinct ids. |
| `Picker.PickerSupervisor.TryLaunchPicker` | packages/d2b-clipd/src/picker.rs:196-235 | Result and whole new state, with the three refusals in order. |
| `Picker.PickerSupervisor.CancelActive` | packages/d2b-clipd/src/picker.rs:285-294 | The active picker is asked to terminate and gets its kill deadline. |
| `Picker.PickerSupervisor.ReapExpired` | packages/d2b-clipd/src/picker.rs:317-331 | Cancels exactly when the deadline has passed. |
| `Picker.PickerSupervisor.ReapTerminated` | packages/d2b-clipd/src/picker.rs:333-348 | The drain loop reaps, kills and keeps exactly as specified. |
| `Picker.EveryRunIsSound` | packages/d2b-clipd/src/picker.rs:196-348 | Over every run each spawned picker is active, terminating or reaped and only one of these, at most one is active, each is asked to terminate before a kill, killed at most once, and not before 250 ms have passed. |
| `Picker.ReapKillsOverdue` | packages/d2b-clipd/src/picker.rs:333-348 | After a pass, whatever still runs past its deadline has been killed. |
| `Picker.ReapSorts` | packages/d2b-clipd/src/picker.rs:333-348 | One pass keeps exactly the processes neither look found gone, marking the overdue ones as killed, and collects exactly the others. |
| `Picker.LaunchOutcome` | packages/d2b-clipd/src/picker.rs:196-235 | A launch is refused for an active picker, a missing command or a failed start, in that order, and then changes nothing; otherwise the new picker is active until now plus the timeout. |
| `Fallback.FallbackArming.ArmSelectedEntry` | packages/d2b-clipd/src/fallback.rs:61-76 | Arms only from an open picker; new state and transition. |
| `Fallback.FallbackArming.OnFocusChanged` | packages/d2b-clipd/src/fallback.rs:86-103 | Clears exactly an armed state whose target lost focus, with the right reason. |
| `Fallback.FallbackArming.OnTimeout` | packages/d2b-clipd/src/fallback.rs:105-115 | Clears exactly an expired armed state. |
| `Fallback.OpenIff` | packages/d2b-clipd/src/fallback.rs:53-123 | After any run a picker target is held iff its capture was followed only by focus changes and ticks. |
| `Fallback.ArmedIff` | packages/d2b-clipd/src/fallback.rs:53-123 | After any run a paste is armed for an entry, target and deadline iff it was armed from that captured target and since then every focus step named a window with the same id, or where an id is missing the same application, title and workspace, every tick came before the deadline, and nothing cancelled it. |
| `Audit.AuditQueue.EnqueueFailClosed` | packages/d2b-clipd/src/audit.rs:76-86 | Refuses iff the realm is at its quota; per realm, accepted is drained followed by queued. |
| `Audit.AuditQueue.DrainAll` | packages/d2b-clipd/src/audit.rs:92-98 | Returns the queues one after another in the order of realm names, and empties all of them. |
| `Audit.BeforeIsDictionaryOrder` | packages/d2b-clipd/src/audit.rs:92-98 | Realms are ordered by the first character in which they differ, a name before its extensions. |
| `EventLoops.EventLoop.OpenPickerForCandidates` | packages/d2b-clipd/src/main.rs:3388-3455 | Whole new daemon state in the four outcomes of opening a picker. |
| `EventLoops.EventLoop.HandleArm` | packages/d2b-clipd/src/main.rs:2982-3054 | Whole new daemon state in the three outcomes of an arm command. |
| `EventLoops.EventLoop.HandleSelect` | packages/d2b-clipd/src/main.rs:2593-2648 | A selection publishes the named entry or fails; arming and picker end in both cases. |
| `EventLoops.EventLoop.FinishCopyRead` | packages/d2b-clipd/src/main.rs:1742-1756 | A finished read is sent back once, with its result. |
| `EventLoops.EventLoop.RecordCopy` | packages/d2b-clipd/src/main.rs:1788-1822 | The selection, its history row and the cleared host entry. |
| `EventLoops.EventLoop.HandleCopyReady` | packages/d2b-clipd/src/main.rs:1759-1862 | Whole new daemon state for every outcome of the read and of publishing. |
| `EventLoops.EventLoop.HandlePaste` | packages/d2b-clipd/src/main.rs:1864-2000 | Denied, refused, served or sent to a picker: whole new daemon state. |
| `EventLoops.EventLoop.SuppressesEcho` | packages/d2b-clipd/src/main.rs:2069-2107 | An announcement is ignored iff unattributed, forwarded, from the source endpoint, or while something is published. |
| `EventLoops.EventLoop.HandleSelectionChanged` | packages/d2b-clipd/src/main.rs:2064-2165 | Whole new daemon state; what it comes to over a run is `DaemonArrivals.AnnouncementIsTakenUp` and `DaemonArrivals.HostCopyArrives`. |
| `EventLoops.EventLoop.ReadMimes` | packages/d2b-clipd/src/main.rs:2851-2857 | The reader keeps exactly the types whose read completes. |
| `EventLoops.EventLoop.FinishHostRead` | packages/d2b-clipd/src/main.rs:2847-2865 | An entry is sent iff something was read. |
| `EventLoops.EventLoop.RecordHostEntry` | packages/d2b-clipd/src/main.rs:745-758 | The entry becomes current host entry and a history row. |
| `EventLoops.EventLoop.HandleSourceSend` | packages/d2b-clipd/src/main.rs:2169-2383 | Whole new daemon state: served, ignored or sent to a picker. |
| `EventLoops.EventLoop.CheckTimeouts` | packages/d2b-clipd/src/main.rs:695-704 | Expiry, reaping and arming timeout, in that order. |
| `EventLoops.EventLoop.Handle` | packages/d2b-clipd/src/main.rs:402-708 | Every event takes the daemon to its specified next state. |
| `EventLoops.Serve` | packages/d2b-clipd/src/main.rs:402-708 | Given any list of events the loop goes through the specified run and ends in a state with all run invariants. |
| `DaemonRuns.EveryRun` | packages/d2b-clipd/src/main.rs:402-708 | All invariants below hold in every reachable state. |
| `DaemonRuns.ServedFromAPick` | packages/d2b-clipd/src/main.rs:2721-2748 | Every payload written out is the requested type's payload of the entry most recently named by a picker selection and published, with no direct paste in between. |
| `DaemonRuns.PastesAtMostPicks` | packages/d2b-clipd/src/main.rs:1953-1967 | Directly served bridge pastes never outnumber picker selections. |
| `DaemonRuns.PasteFollowsItsAudit` | packages/d2b-clipd/src/main.rs:1922-1967 | Each directly served paste comes straight after its own accepted Allow record. |
| `DaemonRuns.StoredIsClean` | packages/d2b-clipd/src/main.rs:1724-1757 | In every reachable state all stored types are allowed and all payloads at most 8 MiB. |
| `DaemonRuns.ServedIsClean` | packages/d2b-clipd/src/main.rs:1038-1059 | Nothing is ever written out under a disallowed type, nor from anything but content read under an allowed type within the cap. |
| `DaemonRuns.HistoryIsCoherent` | packages/d2b-clipd/src/main.rs:949-991 | The daemon's history is coherent in every run with fewer than 2^64 host copies. |
| `DaemonRuns.SelectionAgreesWithItsRow` | packages/d2b-clipd/src/main.rs:1790-1822 | The live bridge selection has the same data as its own history row while the row is kept. |
| `DaemonRuns.WaitingMeansActive` | packages/d2b-clipd/src/main.rs:3388-3476 | Between steps an arming that waits for a picker implies an active picker, and all pickers are accounted for. |
| `DaemonRuns.AuditAlwaysHasRoom` | packages/d2b-clipd/src/main.rs:1922-1955 | The audit queue is empty between steps, so no paste is ever refused for want of room. |
| `DaemonRuns.TickExpires` | packages/d2b-clipd/src/main.rs:695-704 | After a tick nothing active or armed is past its deadline and every overdue picker has been killed. |
| `DaemonRuns.PublishedHidesTheHost` | packages/d2b-clipd/src/main.rs:2100-2107 | While anything is published, host announcements change neither selections nor history. |
| `DaemonRuns.SelectPublishesTheEntry` | packages/d2b-clipd/src/main.rs:2721-2793 | A selection publishes what its entry holds at that moment, once the data-control device is bound and the flush works. |
| `DaemonRuns.DiscoveryShowsTheSelection` | packages/d2b-clipd/src/main.rs:1823-1842 | In every reachable state a published discovery is that of the live bridge selection, and carries its data. |
| `DaemonArrivals.MatchesMeansNames` | packages/d2b-clipd/src/main.rs:3710-3736 | A window belongs to an endpoint iff its application id is d2b. and the target, trailing dots removed, or extends it after a dot, or the same with the name of its virtual machine. |
| `DaemonArrivals.IgnoredIsEcho` | packages/d2b-clipd/src/main.rs:2069-2107 | After every run an announcement is ignored iff no window has the focus, its application id is d2b. and more, it belongs to the endpoint that owns the selection, or something is published. |
| `DaemonArrivals.AnnouncementIsTakenUp` | packages/d2b-clipd/src/main.rs:2064-2165 | After every run an ignored announcement only forgets the one before; any other ends selection, publication, arming and current host entry, and starts a reader for its allowed types iff there is an offer, a pipe, a permit and a thread. |
| `DaemonArrivals.AnnouncementIsTheLast` | packages/d2b-clipd/src/main.rs:2166-2168 | Over every run what counts as announced is the last announcement that was not ignored, cleared or ended by a cancellation. |
| `DaemonArrivals.ReaderStays` | packages/d2b-clipd/src/main.rs:2815-2865 | Over every run a reader an announcement started stays at work until it reports with all its reads over. |
| `DaemonArrivals.ReadAllDelivers` | packages/d2b-clipd/src/main.rs:2847-2858 | Once every read is over the entry holds exactly the types read to their end within 8 MiB, each with the bytes of its last delivery. |
| `DaemonArrivals.HostQueueIsInOrder` | packages/d2b-clipd/src/main.rs:745-758 | Over every run finished host entries are taken up first in, first out. |
| `DaemonArrivals.HostCopyArrives` | packages/d2b-clipd/src/main.rs:2815-2865 | Over every run: once the reader of an announcement that is not ignored has reported and its entry is taken up, the newest history row and the current host entry hold exactly the delivered content of each allowed type, with the time of the announcement. |
| `DaemonArrivals.CopyIsRead` | packages/d2b-clipd/src/main.rs:1714-1757 | A request to copy a rejected type does nothing; with permit and thread the type is read; without a permit an empty report is queued. |
| `DaemonArrivals.EndpointCopyArrives` | packages/d2b-clipd/src/main.rs:1759-1862 | Over every run: once a finished read from an endpoint is taken up, its selection and the newest history row hold the bytes read under their type beside the types the same selection already had, no host entry is current, and with the device bound and the flush working the data is published for discovery. |
| `DaemonArrivals.HostReadersAreConserved` | packages/d2b-clipd/src/main.rs:2815-2865 | Over every run the readers announcements started are those still at work plus those that have reported, each once. |
| `DaemonArrivals.CopyReportsOnce` | packages/d2b-clipd/src/main.rs:1742-1756 | A report from an endpoint reader ends that reader and queues one answer, with the bytes iff the read came to its end within the cap; before that nothing changes. |
| `DaemonServing.ServingIff` | packages/d2b-clipd/src/main.rs:2721-2772 | After every run an entry is being served iff it was picked and published and no later event ended that: a copy arriving, an allowed paste, another pick or a cancellation. |
| `DaemonServing.ServesExactlyWhen` | packages/d2b-clipd/src/main.rs:2169-2191 | After every run an event makes the daemon write a payload out iff it demands such an entry, the entry has the type, and a helper permit and thread are there to write; then exactly that payload. |
| `DaemonServing.DiscoveryNeverServes` | packages/d2b-clipd/src/main.rs:931-933 | Nothing is written out while only a discovery, or nothing, is published. |
| `DaemonOffers.OffersResolve` | packages/d2b-clipd/src/main.rs:3159-3311 | In every run with fewer than 2^64 host copies every candidate a picker is opened with stands for data serving the type with the size shown; only the unread host selection has no size. |
| `DaemonAsks.OpenPickerAsks` | packages/d2b-clipd/src/main.rs:3388-3484 | Asking opens a picker for the window with the candidates and 30 s iff one is configured, none is active, its process starts and it answers; otherwise the host selection is armed for 30 s. |
| `DaemonAsks.PasteAsks` | packages/d2b-clipd/src/main.rs:1864-2000 | After every run a paste of a rejected type is recorded as denied and changes nothing else; any other is recorded as allowed, uses up a selected entry, and asks unless that entry has the type. |
| `DaemonAsks.SendAsks` | packages/d2b-clipd/src/main.rs:2191-2383 | After every run a request for the live selection asks, unless it comes from the endpoint itself or an unpublished selection lacks the type; a request for neither it nor a selected entry does nothing. |
| `DaemonAsks.ArmAsks` | packages/d2b-clipd/src/main.rs:2982-3054 | The arm command opens a picker for plain text, or leaves nothing armed. |
| `DaemonAsks.PickingDisarms` | packages/d2b-clipd/src/main.rs:2591-2660 | Picking an entry and leaving the picker both close it and disarm. |
| `DaemonAsks.CancelForgets` | packages/d2b-clipd/src/main.rs:2384-2402 | A cancelled source is no longer published nor an endpoint's selection; nothing else changes but what was announced. |
| `DaemonAsks.HostIsOffered` | packages/d2b-clipd/src/main.rs:3159-3245 | The current host entry is offered first iff it has the type and no row that has it is newer; otherwise the announced host selection is, without a size, iff it names the type or, for plain text, any plain text. |
| `DaemonAsks.DiscoveryOffersHost` | packages/d2b-clipd/src/main.rs:2216-2260 | In a discovery the current host entry is offered first iff it has the type and is at least as new as the first other candidate. |
| `DaemonAsks.OffersAreComplete` | packages/d2b-clipd/src/main.rs:3159-3335 | After every run, whenever a picker opens, every history row that has the type is offered with its own id, origin, time and size, except the rows of the endpoint whose selection is asked for; and that selection is offered itself if it has the type. |
| `DaemonArming.ArmingFollows` | packages/d2b-clipd/src/main.rs:402-708 | Over every run the daemon's arming is a run of the arming's own steps: reported focus and time, announcements not ignored, picks and cancellations, and the questions asked. |
| `DaemonArming.ArmedInTheDaemon` | packages/d2b-clipd/src/main.rs:402-708 | So in the daemon a paste is armed iff one of those steps armed it for a captured window and every later one left it alone. |
| `DaemonContent.StepKeepsContent` | packages/d2b-clipd/src/main.rs:1724-1862 | Every step keeps every held payload traceable to an allowed, capped read. |
| `DaemonLog.StepKeepsLog` | packages/d2b-clipd/src/main.rs:1922-1967 | Every step keeps the serving discipline of the log. |
| `DaemonState.StepKeepsHistory` | packages/d2b-clipd/src/main.rs:1790-1822 | Every step keeps history and live selection in agreement. |
| `DaemonState.StepKeepsPicker` | packages/d2b-clipd/src/main.rs:2982-3054 | Every step keeps arming and supervisor in agreement. |

## Left out

- SessionRuns.EmptyReportMeansUnchanged: assumes of the emulator only that a resize which changes the view reports a dirty row, and of the pump that a read fills at most its buffer; the emulator itself (`avt`), its screen dump and row rendering are not part of this model.
- SessionReports.ReportCoversTheWindow: speaks of runs in which nothing was evicted; what an evicted ring still answers is stated for each ring by `RingLog.SinceMatches`.
- SessionRuns.SwitchReportIsExact: speaks of the net change over the window; switching to the alternate screen and back inside it is reported as no switch.
- GuestAuth.EncodingIsInjective: for fields shorter than 2^32 bytes, the range in which the four-byte length is exact.
- EventLoops.EventLoop.HandleSelect: the replayed key press, notifications and refresh frames to bridge streams are not modelled.
- EventLoops.EventLoop.OpenPickerForCandidates: labels, previews and application names of candidates are not modelled; candidates carry id, origin, type, time and size.
- Data-control source numbers are unbounded; 64-bit overflow of their counter is not modelled.
- Picker.EveryRunIsSound: processes are numbered by spawn order instead of operating-system pids; the picker's own frames are events.
- A poisoned session lock and errors while waiting for the child, in the pump.
- Key encoding and bracketed-paste sanitising (`keys.rs`): mostly a finite table.
- Wayland and Niri protocols, virtual keyboard, desktop notifications, control-socket framing, accept back-off and idle-stream reaping of the daemon.
- `html2text`: an arbitrary function in the model.
- Sockets, descriptor flags and system-call plumbing of all programs; broker and guest wire types, command-line output and other data-transfer code.
