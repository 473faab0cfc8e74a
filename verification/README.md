# Verified model of the PTY daemon's kernels

The repository runs terminal programs in a background daemon and serves them to command-line, web and
plugin clients. This project models the parts of it whose correctness rests on an argument rather than on
plumbing, one Dafny module per component, and proves what those parts promise. `dafny verify dfyconfig.toml`
checks all of it.

| module | component | what is proved |
|---|---|---|
| `Seqlock` | token area in shared memory | every interleaving of one writer and one reader, byte by byte; the exact bound at the wrap of the sequence byte; the exact starting condition; exactly which crashes of the writer are harmless; what giving up costs |
| `Cleanup` | zeroing of the token area at shutdown | when exactly it leaves all reads, under way and to come, with tokens that were current |
| `Zeroing` | the same byte by byte | what exactly a read between its stores can return, a publish under way included |
| `Ansi` | linear ANSI stripper | equal to leftmost regular-expression substitution on every text, at most six character inspections per character; exactly when a second pass changes nothing |
| `Mouse` | Bresenham drag path | the points are the nearest ones to the ideal line; termination; screen bounds; the SGR button value bit by bit |
| `Diff` | unified-diff hunks | grouping keeps every change once; an independent patch function turns before into after; when exactly it does so including line endings; when exactly n lines of context are kept to |
| `Wire` | message lines and transfer frames | for every chunking, close, reset and timeout, exactly which items come out and what is dropped |
| `Codec` | streaming UTF-8 and GBK decoding | strict decoding is exact; every prefix of valid text and every chunking of a stream decodes to its whole characters |
| `OutputRing` | output buffer with stream offsets | retention, gap reporting to a resuming reader, amortised trimming cost |
| `ControlText` | control-key escape language | quote escaping; printing and expanding are inverse, with the exact exception; why reading stops; pause offsets |
| `Keys` | control-key tokens | the bytes of every token from its spelling alone |
| `Segments` | segmented writing of input | the text is cut exactly at the expected places; nothing is lost |
| `Typing` | typed input from end to end | where exactly the writing of expanded keys pauses |
| `Notifications` | notification queue | counters, per-session eviction, global order, conservation, over every run |
| `CliOptions` | plugin command-line options | what is flagged, what is registered, and what manifest validation guarantees |
| `Events` | event bus | topic matching against a non-recursive definition; what unsubscribing removes |
| `Registry` | plugin registry | the lifecycle invariant over every run; what every operation makes of a plugin; which plugins a published event reaches; where a reported conflict is stale |
| `Sessions` | session manager | when a creation is refused; table consistency and exactly-once archiving and announcement under every interleaving |
| `ProcessTree` | process tree | termination for arbitrary parent links; exactly what is collected and what the forest covers |
| `Common` | | shared datatypes and sequence facts |

## How it is built

Code that works step by step is a `method` or a `class` with the source's loops, proved equal to a
specification function of its inputs or of the old state. What the source promises is then proved about the
specification: as lemmas over all inputs, or over all runs of a state machine whose steps are the
specification functions. Concurrency is modelled by such runs: one step is one shared-memory byte access
(`Seqlock`) or one critical section of a lock (`Sessions`).

Inputs from outside enter as parameters: the socket's chunks and timeouts (`Wire`), the opcodes of
`SequenceMatcher` as any list that tiles both sides (`Diff`), the parent links the operating system reports
(`ProcessTree`), whether a plugin's code raises and whether a directory loads (`Registry`), the Unicode
decimal digits outside ASCII (`Ansi`), the built-in option strings (`CliOptions`, `Registry`).

## What the proofs found

Places where the code does less than its documentation says, or where a natural property fails. Each has a
lemma with the exact condition and, where the condition does not itself show an input, one with a witness.

- The seqlock is safe if and only if its first sequence byte is even: `SafeExactlyWhenEven`. Then a torn read
  spans a positive multiple of 128 publishes, and every such span occurs: `TearsExactlyAtWraps`. An odd byte
  arises when a writer dies between its two marks, and only then: `CrashSafeExactlyWhenQuiet`, `CrashTears`.
- The cleanup at shutdown zeroes the token area without the odd mark, while publishes and reads go on.
  `CleanupSafeExactly` says exactly when no read can then return a mixture, and `ReadDuringCleanup` that a read
  between its stores can return every byte-wise mixture of the old token, the one being published and zeros.
- The ANSI stripper is not idempotent: `NotIdempotent`. On a given text it is if and only if no removed sequence
  has a cut-off one right before it that the text behind it completes: `StableExactlyWhenNoSeam`, and as a walk
  over the text alone `StableExactlyByText`.
- Hunks can carry up to 2n lines of context where the comment at `src/files/diff.py:34-35` says n:
  `ContextReachesTwice`. They keep to n if and only if the files do not start or end with an unchanged
  stretch of more than n and at most 2n lines: `ContextExact`.
- A diff of two different files reproduces `after` exactly if and only if there is a change of text and the lines
  out of reach of one agree in their line endings: `PatchExact`, `GenerateDiff`, and for the hunks as computed
  `MergedExact`. Files that differ in line endings only give no hunk at all: `NoHunks`, `EndingsOnly`.
- A message whose last chunk takes the buffer over the limit is dropped even when only the excess belongs
  to the next message: `LineReceived` is an equivalence, as is `ConversationDelivered` for a whole conversation.
- One timeout inside a frame loses all that was buffered of it, where a message survives several:
  `FrameReceived` is an equivalence.
- A literal backtick directly before a key token cannot be written in the escape language:
  `PrintedExpands` is an equivalence.
- A failed plugin reload returns without refreshing conflicts. No running plugin is put at risk
  (`UnloadKeeps`), but another plugin can stay broken by a conflict that is gone:
  `FailedReloadLeavesFault` says exactly when, `FaultOutlivesConflict` gives the run.
- A reload that does not end with the plugin running leaves one that ran remembered as disabled, so that it
  stays off at the next start: `ReloadDecides`, `ReloadFails`.
- `remove` is documented to clear the plugin's state (`src/plugins/registry.py:407`) but clears only the state
  file; the table in memory is kept. `RemovalForgetsExactly` says when that makes no difference,
  `ReinstalledStaysDisabled` gives a run where it does.
- A session cannot be found by its sid if and only if that sid is another session's uid: `SidFinds`.
- The process tree is complete if and only if, with a natural root, no process is its own ancestor, and,
  without one, all processes are below the smallest pid and that is not its own parent: `ForestExact`.
  A fallback root that is its own parent is listed twice: `SelfParentTwice`. The test for visited ancestors
  at `src/process/info.py:328` never fires: every visited process is already in the set that the loop tests
  first.

## Model

| member | source | states |
|---|---|---|
| Seqlock.StripNuls | src/ipc/shm.py:96 | stripping trailing NULs gives the longest prefix that does not end in NUL |
| Seqlock.TokenRoundTrip | src/ipc/shm.py:67-96 | a token survives padding, truncation and stripping if and only if it fits 63 bytes and does not end in NUL |
| Seqlock.SameSeqSamePublish | src/ipc/shm.py:70-94 | equal even sequence bytes mean that no publish is under way and that a multiple of 128 completed in between |
| Seqlock.StepKeepsInv | src/ipc/shm.py:61-102 | every single byte access by writer or reader keeps the protocol invariant |
| Seqlock.RunKeepsInv | src/ipc/shm.py:61-102 | the invariant holds after every interleaving |
| Seqlock.SeqlockSafe | src/ipc/shm.py:61-102 | from an even sequence byte, a read returns only if a multiple of 128 publishes completed during it, with none the token current at its start, untorn, and reads never go back in time |
| Seqlock.QuietReadReturnsCurrent | src/ipc/shm.py:87-100 | a read without interference returns the current token at the first attempt, wherever it pauses |
| Seqlock.GivesUpOnlyDisturbed | src/ipc/shm.py:85-102 | in every interleaving a call gives up only after four attempts each of which met a publish under way or completed since it began, and never makes more than four |
| Seqlock.ExecPublishing | src/ipc/shm.py:61-74 | the writer's steps, run in sequence, install the padded token and advance the sequence byte by two |
| Seqlock.WrapTears | src/ipc/shm.py:70-94 | a read spanning any positive multiple of 128 publishes can return the first k bytes of one token with the rest of another, for every k |
| Seqlock.BoundIsTight | src/ipc/shm.py:70-94 | at any positive multiple of 128 publishes some run returns bytes that were never published together |
| Seqlock.TearsExactlyAtWraps | src/ipc/shm.py:70-94 | some run has a torn read that spans n publishes if and only if n is a positive multiple of 128 |
| Seqlock.OddStartTears | src/ipc/shm.py:68-74 | from an odd sequence byte a read overlapping one unfinished publish returns its first k bytes with the rest of what was there, for every k |
| Seqlock.LogSafeData | src/ipc/shm.py:61-102 | that implies what a caller sees: a read overlapped by fewer than 128 publishes returns a token that was current during it |
| Seqlock.SafeExactlyWhenEven | src/ipc/shm.py:61-102 | this holds of all runs if and only if the protocol starts even |
| Seqlock.SafeAcrossQuietCrashes | src/ipc/shm.py:40-47 | however often the writer dies and another takes over the mapping, all runs are safe when no crash falls between the two marks of a publish |
| Seqlock.CrashTears | src/ipc/shm.py:68-74 | after a crash between the marks the reader can finish its call and then read the next publish torn |
| Seqlock.CrashSafeExactlyWhenQuiet | src/ipc/shm.py:61-102 | in every reachable state a crash of the writer leaves all later reads with current tokens if and only if it is not between the two marks |
| Seqlock.TokenArea.constructor | src/ipc/shm.py:134-137 | a mapping that nobody held yet is all zero, hence even |
| Seqlock.TokenArea.Publish | src/ipc/shm.py:61-74 | the in-place writer leaves the memory as the state machine's writer steps do |
| Seqlock.TokenArea.Read | src/ipc/shm.py:87-102 | alone, the retry loop returns the stored token exactly when the sequence byte is even and the token is not empty |
| Cleanup.StepKeepsAfter | src/ipc/shm.py:61-102 | behind a harmless cleanup every byte access keeps an invariant in which a read from before it may still return |
| Cleanup.BetweenStep | src/ipc/shm.py:61-102 | so does every access up to the next mark of a publish that the cleanup finds under way |
| Cleanup.HarmlessSafe | src/ipc/shm.py:161-169 | a cleanup that meets the condition leaves every later run with current tokens |
| Cleanup.ReadBreaks | src/ipc/shm.py:85-98 | when the read under way does not meet it, some run makes that read return what no publish during it stored |
| Cleanup.PublishBreaks | src/ipc/shm.py:68-74 | when the publish under way does not, some run makes a later read do so |
| Cleanup.CleanupSafeExactly | src/ipc/shm.py:161-169 | in every reachable state, after an uninterrupted cleanup all reads overlapped by fewer than 128 publishes return tokens current during them if and only if the publish under way, if any, goes on from byte 0, or from 254 with a token of at most one byte, and stores only zeros once marked, and the read under way, if its byte comes back in time, has settled data that was current |
| Cleanup.NothingToWipe | src/ipc/shm.py:161-169 | a cleanup of zeros under byte zero changes nothing and is harmless |
| Cleanup.AllLoadedHarmless | src/ipc/shm.py:90-98 | so is one that finds a read with all bytes of a current token |
| Zeroing.RunKeepsMixed | src/ipc/shm.py:61-98 | whatever is stored, loaded or returned between the byte stores of the cleanup is such a mixture |
| Zeroing.AnyMixture | src/ipc/shm.py:85-98 | byte by byte the read can come before the cleanup and the publish, behind the zero, or behind the store |
| Zeroing.ReadDuringCleanup | src/ipc/shm.py:61-98 | reads during the cleanup can return exactly the byte-wise mixtures of the old token, the token under way and zeros |
| Zeroing.WholeExactlyWhenShort | src/ipc/shm.py:161-169 | without a publish none of these is a mixture if and only if the token has at most one byte that is not zero |
| Ansi.SgrDecided | src/protocol/ansi.py:37-45 | the first non-parameter character decides whether there is an SGR match and where it ends |
| Ansi.OscDecided | src/protocol/ansi.py:92-106 | the first terminator decides the OSC match; without one there is none |
| Ansi.StrippedPlain | src/protocol/ansi.py:67-72 | text without ESC is kept by the substitution |
| Ansi.FindEsc | src/protocol/ansi.py:67 | the first ESC from a position on, with the characters inspected |
| Ansi.ScanSgr | src/protocol/ansi.py:37-45 | the end of the parameter run, with the characters inspected |
| Ansi.ScanOsc | src/protocol/ansi.py:92-103 | the first OSC terminator, with the characters inspected |
| Ansi.AtCsi | src/protocol/ansi.py:78-86 | a CSI start is removed when its parameters end in m; otherwise ESC is kept and the scanned stretch holds no further ESC |
| Ansi.AtOsc | src/protocol/ansi.py:92-110 | an OSC start is removed up to its first terminator, or ESC is kept and no terminator can follow any more |
| Ansi.AtEsc | src/protocol/ansi.py:73-113 | one step at an ESC agrees with the substitution, keeps the dead mark sound and pays for what it inspects |
| Ansi.StripAnsi | src/protocol/ansi.py:48-122 | equals leftmost non-overlapping removal of SGR and shortest OSC matches on every text, and inspects at most six characters per character |
| Ansi.UnchangedExactlyWhenNoMatch | src/protocol/ansi.py:58-59 | a text comes back unchanged if and only if it holds no removable sequence |
| Ansi.NotIdempotent | src/protocol/ansi.py:48-113 | a text from which the second pass strips more than the first |
| Ansi.MatchRejoins | src/protocol/ansi.py:48-113 | a removable sequence in the kept text spans a gap right after ESC, after ESC [ and parameters, or inside a terminator |
| Ansi.StableExactlyWhenNoSeam | src/protocol/ansi.py:48-113 | stripping twice is stripping once if and only if no removed sequence has a cut-off sequence right before it that the text kept behind it completes |
| Ansi.StableExactlyByText | src/protocol/ansi.py:48-113 | the same condition as a walk over the text that skips removed sequences |
| Ansi.StableWithoutCutHeads | src/protocol/ansi.py:48-113 | in particular when no removable sequence starts right after ESC or after ESC [ and parameters |
| Mouse.NearestIs | src/input/mouse.py:97-103 | the rounded minor coordinate is the integer within half a unit of the ideal one, and conversely |
| Mouse.NearestShape | src/input/mouse.py:93-104 | the rounded line starts and ends right, stays in range and rises by at most one per step |
| Mouse.BresenhamLine | src/input/mouse.py:83-104 | the loop ends with one point per step of the longer axis plus one, each the nearest grid point to the ideal line |
| Mouse.LineShape | src/input/mouse.py:83-104 | end points, distinct king-move neighbours, doubled deviation at most the number of steps, inside the spanned rectangle |
| Mouse.EncodeButton | src/input/mouse.py:44-74 | every bit of the SGR value: base, each modifier if and only if given, motion if and only if asked |
| Mouse.Drag | src/input/mouse.py:195-226 | fails exactly on an end point off the screen, column before row, or an unknown button; otherwise press, the whole line in motion, release, all on the screen, with the button's bits and modifiers |
| Diff.SplitGroups | src/files/diff.py:31-56 | the grouping loop computes the recursive grouping |
| Diff.KeepChanged | src/files/diff.py:56 | the filter keeps the groups with a change, in order |
| Diff.SplitLinked | src/files/diff.py:37-55 | groups are ordered and apart, and the lines between them agree in text up to both ends |
| Diff.ChangedLinked | src/files/diff.py:56 | dropping groups without changes keeps that |
| Diff.SplitChanges | src/files/diff.py:37-55 | grouping keeps every change exactly once and in order |
| Diff.GroupsCover | src/files/diff.py:31-56 | for every tiling, the final groups link up and hold every change exactly once, in order |
| Diff.SplitContext | src/files/diff.py:43-51 | no equal run in a group is longer than 2n lines |
| Diff.LeadSplit | src/files/diff.py:37-55 | which leading context the groups to come have, whatever is open |
| Diff.TrailSplit | src/files/diff.py:37-55 | the same for the trailing context |
| Diff.ContextExact | src/files/diff.py:31-56 | every hunk has at most n lines of context on either side if and only if neither the first nor the last opcode is an equal run of more than n and at most 2n lines |
| Diff.ContextReachesTwice | src/files/diff.py:43-51 | such a run of 2n lines stays whole at the start and at the end |
| Diff.RangeRoundTrip | src/files/diff.py:20-28 | a header range read back gives the start and length it was made from |
| Diff.ChainEqualLengths | src/files/diff.py:40-49 | in a tiling every equal run has the same length on both sides |
| Diff.EqualApplies | src/files/diff.py:77-84 | the body of an equal run, endings compared, patches before's lines into after's |
| Diff.ChangeLine | src/files/diff.py:85-90 | line by line, the body of a change is its removed lines in order and then its added ones |
| Diff.EqualLine | src/files/diff.py:77-84 | line by line, an equal run keeps a line, or removes and then adds it when its ending differs |
| Diff.OpApplies | src/files/diff.py:76-90 | so does the body of any opcode |
| Diff.GroupApplies | src/files/diff.py:69-90 | so does the body of a whole hunk |
| Diff.PatchGives | src/files/diff.py:59-91 | the hunks apply one after the other at the positions and with the counts in their headers |
| Diff.MergedText | src/files/diff.py:59-91 | the patched lines have after's text, line by line |
| Diff.MergedExact | src/files/diff.py:59-91 | they are after itself if and only if the lines outside the hunks agree including their endings |
| Diff.NoHunks | src/files/diff.py:37-56 | without a change there is no hunk |
| Diff.HiddenGaps | src/files/diff.py:37-56 | the lines between hunks are exactly those of long equal runs out of reach of a change, and all lines when there is none |
| Diff.PatchExact | src/files/diff.py:59-91 | the patched lines are after itself if and only if, with a change, the lines out of its reach agree including their endings, and, without one, the files are the same |
| Diff.EndingsOnly | src/files/diff.py:59-91 | two one-line files that differ in the line end only: the opcodes hide nothing, yet there is no hunk |
| Diff.CountHunks | src/files/diff.py:76-90 | added and removed lines of the hunks exceed the opcode counts by the number of ending-only pairs they show |
| Diff.NetChange | src/files/diff.py:113-117 | additions minus removals is the difference in length |
| Diff.RenderMarked | src/files/diff.py:86-90 | the loops over removed and added lines |
| Diff.RenderOp | src/files/diff.py:76-90 | the body of one opcode |
| Diff.RenderGroup | src/files/diff.py:76-90 | the body of one group |
| Diff.RenderHunks | src/files/diff.py:69-91 | all hunks with their header ranges |
| Diff.GenerateDiff | src/files/diff.py:94-125 | the hunks patch before into after's text, and into after itself exactly when the computed gaps, and for joined equal runs the opcodes, say so; additions and removals are the sums over the opcodes, and tied to the hunks' own counts; equal inputs give nothing |
| Wire.NewlineFrom | src/protocol/message.py:146 | the first newline from a position on |
| Wire.BigEndianRoundTrip | src/protocol/transfer.py:29 | four big-endian bytes give back every 32-bit length |
| Wire.HeaderRoundTrip | src/protocol/transfer.py:42-66 | a header decodes if and only if its type is known, and then to what was encoded |
| Wire.EncodesExactly | src/protocol/transfer.py:42-50 | a payload is encoded if and only if it is within the limit of its type, as its length, most significant byte first, its type and itself |
| Wire.HeaderExactly | src/protocol/transfer.py:53-66 | a header gives a length and a type if and only if it spells them, the type is one of six and the length within its limit; which error it gives otherwise |
| Wire.Connection.constructor | src/protocol/message.py:133-139 | a connection without an entry in the buffer table |
| Wire.Connection.Recv | src/protocol/message.py:133-220 | the loop with its search cursor computes the recursive reading of a line, with its buffer effect, in every case |
| Wire.Connection.RecvFrame | src/protocol/transfer.py:74-122 | the cursor, fill and compaction compute the recursive reading of a frame, with its buffer effect |
| Wire.Connection.FillBuffer | src/protocol/transfer.py:89-99 | reads until enough bytes are buffered, or reports why not |
| Wire.RoomFits | src/protocol/message.py:203-204 | a line that leaves room for one chunk under the limit fits for every chunking |
| Wire.RoomAllFit | src/protocol/message.py:203-204 | so do all messages of a conversation |
| Wire.LineReceived | src/protocol/message.py:145-220 | for every chunking, all timeouts and any close or reset behind it, the next line is returned with exactly the unread bytes left, and nothing more taken off the socket than needed, if and only if the buffer is within the limit after the chunk that completes it and no timeout or fewer than the retries fall inside the line; otherwise it is dropped with all that is buffered |
| Wire.LineExplained | src/protocol/message.py:145-220 | for any events at all: a line is returned only when it and its newline come before the first close or reset, with the rest kept; a close or reset is reported, with the buffer dropped, only when no newline came before it and the limit and the timeouts did not end the call; those end it only when bytes or timeouts say so |
| Wire.LineCutOff | src/protocol/message.py:188-220 | bytes without a newline before the close or reset are dropped, and the answer is that close or reset if and only if they fit and come in time |
| Wire.FrozenExactly | src/protocol/transfer.py:119 | with immutable bytes left behind, reading a message fails and keeps them if and only if they hold a newline or a chunk comes before too many timeouts |
| Wire.TakenLater | src/protocol/message.py:145-220 | what is to come behind an item, timeouts and chunk ends, is what was to come there before it was read |
| Wire.FillKeepsBytes | src/protocol/transfer.py:89-99 | filling neither loses nor reorders bytes, and reads no further than it must |
| Wire.FillStops | src/protocol/transfer.py:89-99 | the first timeout before enough bytes ends the filling |
| Wire.FrameReceived | src/protocol/transfer.py:74-122 | for every chunking and every leftover of message reading, the next frame is returned and exactly the unread bytes stay if and only if no timeout falls inside it; otherwise what was buffered of it is lost |
| Wire.FrameExplained | src/protocol/transfer.py:74-122 | for any bytes and events: a frame is returned if and only if its whole encoding comes before the end of the stream and any timeout; a bad header is reported if and only if its bytes come; what the end or a timeout cuts off is dropped and reported as that |
| Wire.FramesDelivered | src/protocol/transfer.py:74-122 | successive calls return all frames in order if and only if no timeout falls inside any |
| Wire.ConversationDelivered | src/protocol/message.py:133-220 | messages followed by frames, with timeouts anywhere and any end of the stream behind: the messages come out one per call, in order, if and only if each fits in the given chunking and comes in time; then the frames do if and only if no timeout falls inside them, and then exactly the unread bytes stay |
| Wire.LineAfterFrame | src/protocol/transfer.py:119 | reading a message when a frame left bytes behind fails with a type error, as the leftover is immutable |
| Codec.DecodeOneIsBytes | src/session/codec.py:130-134 | whatever decodes as one character is the encoding of that character |
| Codec.CutDoesNotDecode | src/session/codec.py:130-136 | a cut character does not decode |
| Codec.DecodeStrictExactly | src/session/codec.py:130-134 | strict decoding succeeds exactly on the encodings of texts and returns the text |
| Codec.Utf8TrimTail | src/session/codec.py:18-58 | the index loops compute the trimmed prefix |
| Codec.GbkTrimTail | src/session/codec.py:61-78 | the index loop computes the trimmed prefix |
| Codec.TrimmedAtCut | src/session/codec.py:18-78 | after whole text, trimming removes exactly the bytes of a cut character |
| Codec.ConsumedIsText | src/session/codec.py:113-149 | for any bytes, what is returned is the text of exactly the bytes reported as consumed: all of them, or those that trimming leaves |
| Codec.PrefixYields | src/session/codec.py:113-149 | every byte prefix of valid text yields its whole characters and their byte length; less than one character is left over |
| Codec.AnyChunkingDecodes | src/session/trigger_matcher.py:779-788 | with the tail carried over, every chunking of every part of valid text decodes to its whole characters |
| Codec.WholeStreamDecodes | src/session/trigger_matcher.py:779-788 | every chunking of a complete text gives back the text and carries nothing |
| OutputRing.OutputBuffer.constructor | src/session/buffer.py:32-43 | an empty buffer at offset 0 |
| OutputRing.OutputBuffer.Append | src/session/buffer.py:92-128 | keeps the suffix of the history: all of it up to a quarter over the maximum size, else the newest maximum-size bytes; with the new offset, trim generation and bytes moved |
| OutputRing.OutputBuffer.StreamEnd | src/session/buffer.py:65-69 | the stream end is the number of bytes ever appended |
| OutputRing.OutputBuffer.ReadStream | src/session/buffer.py:71-90 | returns the retained history from the requested offset and whether older bytes were asked for |
| OutputRing.ApplyKeepsInv | src/session/buffer.py:71-128 | every append and every resumed read keeps retention, cost and delivery |
| OutputRing.RunKeepsInv | src/session/buffer.py:71-128 | so does every run |
| OutputRing.ReaderNeverMisled | src/session/buffer.py:71-90 | each delivery is the right piece of history, nothing twice, gaps exactly where reported |
| OutputRing.ReadingCatchesUp | src/session/buffer.py:71-90 | every resumed read delivers all that is retained behind the last one, and skips no more than was trimmed |
| OutputRing.NewestRetained | src/session/buffer.py:104-112 | the newest maximum-size bytes can always be read |
| OutputRing.TrimmingIsAmortised | src/session/buffer.py:15-18 | all trims together move at most four times the bytes appended |
| OutputRing.GaplessReaderHasEverything | src/session/buffer.py:71-90 | a reader never told of a gap has the whole history |
| ControlText.EscapeRawQuotes | src/input/text.py:15-36 | the loop computes the escaping, backslash runs counted backwards |
| ControlText.QuotesAllEscaped | src/input/text.py:15-36 | afterwards every quote follows an odd run of backslashes; unchanged if and only if that held before; idempotent |
| ControlText.QuotesOnly | src/input/text.py:15-36 | nothing else changes: every character stays, in order, with one backslash more before each raw quote |
| ControlText.BackslashRun | src/input/text.py:27-31 | the backward count is the whole run of backslashes before a place |
| ControlText.FindClose | src/input/text.py:200-202 | the first unquoted closing brace |
| ControlText.ExpandControlCharacters | src/input/text.py:170-238 | the loop computes the recursive reading, errors included |
| ControlText.PrintedExpands | src/input/text.py:170-238 | the print of literals and recognised tokens expands to its meaning with pauses at token ends if and only if no literal backtick precedes a token |
| ControlText.ExpandedIsPrinted | src/input/text.py:193-238 | whatever expands is the print of such a list |
| ControlText.ErrorExplained | src/input/text.py:200-235 | an error stands behind a printed part: at a brace that closes nothing, an opening one that nothing closes, or a closed token that the table does not know |
| ControlText.PausesIncrease | src/input/text.py:223-224 | pause offsets increase strictly within the text when every token produces something |
| ControlText.KeysProduceSomething | src/input/text.py:116-162 | every recognised key does |
| ControlText.PlainName | src/input/text.py:129 | a lower-case name is its own and only part |
| ControlText.EnterExpands | src/input/text.py:282 | the appended token expands to the line end with one pause after it |
| ControlText.ProcessInput | src/input/text.py:241-296 | expansion, then the line end exactly when the text has none, as a token with a pause or as plain text |
| Keys.SpelledTrims | src/input/text.py:129 | a name in any case and with any blanks around it is read as that name |
| Keys.EveryBodySpelled | src/input/text.py:129 | every body is spelled by some parts and names, so that the next three cover all tokens |
| Keys.LetterTyped | src/input/text.py:116-162 | a letter without a modifier is refused; with ctrl it becomes the character of its place in the alphabet, else with shift its capital, else itself, and with alt one ESC more in front, whatever the order, case and blanks |
| Keys.NamedTyped | src/input/text.py:63-99 | every other key becomes exactly the bytes of its name, with one ESC in front under alt; an unknown name is refused |
| Keys.BlankTyped | src/input/text.py:129-131 | a body of blanks and plus signs is refused |
| Segments.CutsDetermine | src/session/io.py:78-102 | segments are determined by the text and the places of the cuts |
| Segments.SortSorted | src/session/io.py:84 | sorting gives the same offsets, each as often, in ascending order |
| Segments.CutAtOffsets | src/session/io.py:85-93 | non-empty pieces that concatenate to the text, cut exactly at the offsets inside it |
| Segments.SeparateLineEnds | src/session/io.py:95-102 | the second loop computes the refinement |
| Segments.RefinedText | src/session/io.py:95-102 | separating line ends keeps the text and leaves nothing empty |
| Segments.RefinedCuts | src/session/io.py:95-102 | it adds exactly the cuts before a line end at a cut |
| Segments.SplitByOffsets | src/session/io.py:78-102 | for any text and offsets: non-empty, concatenating to the text, cut exactly at the expected places |
| Segments.PacedWrites | src/session/io.py:67-74 | the pieces are written once and in order with one pause between any two |
| Segments.WriteInput | src/session/io.py:59-76 | everything is written exactly once and in order; without offsets in one write |
| Typing.PacedSleeps | src/session/io.py:65-74 | the pauses of written segments are exactly at their ends, except behind the last |
| Typing.TypeInput | src/execution/utils.py:155-189 | expanding and writing together: the expansion is written once and in order, with pauses exactly at its offsets inside it and before the line ends there; or the error |
| Typing.TokenEndsMean | src/input/text.py:223-224 | the recorded offsets are exactly the ends of the tokens |
| Typing.KeysApart | src/input/text.py:170-296 | literals and keys typed without a backtick before a key are written as their meaning and the line end still missing, with a pause exactly behind each key and before a line end that a key or the input ends with, none behind the last character |
| Typing.EnterApart | src/session/io.py:78-102 | the line end appended by default is written by itself, behind a pause |
| Notifications.NotificationManager.constructor | src/daemon/notifications.py:82-90 | an empty store |
| Notifications.NotificationManager.Publish | src/daemon/notifications.py:99-137 | the new queue, counters and archive, with at most the session's oldest entry evicted |
| Notifications.NotificationManager.DropOldest | src/daemon/notifications.py:123-127 | the scan removes the session's oldest entry, if there is one, and nothing else |
| Notifications.NotificationManager.ConsumePending | src/daemon/notifications.py:155-179 | everything pending is returned in order and archived |
| Notifications.NotificationManager.ConsumeBySession | src/daemon/notifications.py:181-199 | exactly the session's entries are archived in order, and counted |
| Notifications.NotificationManager.MoveToArchive | src/daemon/notifications.py:189-195 | the loop splits the queue into kept and archived entries |
| Notifications.NotificationManager.GetByNid | src/daemon/notifications.py:201-210 | the first match, pending before archived; none if and only if no entry has the nid |
| Notifications.RunCounted | src/daemon/notifications.py:118-128 | over every run the counters equal the queue counts and stay within the limit |
| Notifications.PendingOfSession | src/daemon/notifications.py:117-128 | over every run, what is pending for a session is the newest of what it published since it was last consumed |
| Notifications.QueueInOrder | src/daemon/notifications.py:85-128 | over every run the queue is in publication order |
| Notifications.NothingLost | src/daemon/notifications.py:99-199 | over every run each published entry is pending, consumed or evicted exactly once, and the archive is the last 200 consumed |
| CliOptions.Collect | src/plugins/cli_options.py:101-108 | the declaration loops build the table of ids per option string and command |
| CliOptions.Flag | src/plugins/cli_options.py:110-125 | the second pass flags an id if and only if it is in the list of a string that is built in or has several ids |
| CliOptions.TableLookup | src/plugins/cli_options.py:101-108 | the table lists, for every string and command, the ids of its declarations in order |
| CliOptions.IdsOnce | src/plugins/cli_options.py:108 | with distinct ids and validated manifests, no id is listed twice |
| CliOptions.FlaggedMeans | src/plugins/cli_options.py:92-125 | flagged if and only if a declared string is built in or another plugin declares it on the same command |
| CliOptions.CheckConflicts | src/plugins/cli_options.py:92-125 | the same of the whole call, for every manifest and no other id |
| CliOptions.ConflictsMonotone | src/plugins/cli_options.py:92-125 | conflicts only grow with the manifests, and order is irrelevant |
| CliOptions.AppendedOn | src/plugins/cli_options.py:182-193 | each command's list is its registrations in order; no list stays empty |
| CliOptions.BuildOption | src/plugins/cli_options.py:185-193 | the loop over commands |
| CliOptions.BuildPlugin | src/plugins/cli_options.py:184-193 | the loop over options |
| CliOptions.BuildRegistrations | src/plugins/cli_options.py:170-194 | the loop over manifests, skipping those in conflict |
| CliOptions.OfferedBy | src/plugins/cli_options.py:183-194 | what is registered is exactly what the plugins not skipped declare |
| CliOptions.RegistrationsClean | src/plugins/cli_options.py:170-194 | no string twice on a command, none built in |
| CliOptions.DetectAndBuild | src/plugins/cli_options.py:170-194 | both passes: each command's list is that of the plugins in no conflict, in order; a string is offered on a command if and only if such a plugin declares it there, then once and not built in |
| CliOptions.ValidatedIsWellFormed | src/plugins/manifest.py:264-337 | a manifest that passes validation declares no string twice on a command |
| CliOptions.KeysDeclared | src/plugins/cli_options.py:84-108 | a manifest declares exactly the long and the short form of each option on the commands it lists, on every command when it lists none |
| CliOptions.RegisteredExactly | src/plugins/cli_options.py:182-194 | the registrations are exactly those of the options of the plugins not skipped, with plugin id, name and strings, on each of their commands |
| CliOptions.RegistrationsInOrder | src/plugins/cli_options.py:182-194 | in manifest order |
| CliOptions.OptionsInOrder | src/plugins/cli_options.py:185-193 | and within a manifest in the order of its options |
| Events.Split | src/plugins/events.py:45-46 | splitting gives at least one segment and no segment with a dot |
| Events.JoinSplit | src/plugins/events.py:45-46 | splitting loses nothing |
| Events.SplitJoin | src/plugins/events.py:45-46 | segments without dots that join to a topic are its segments |
| Events.MatchTopic | src/plugins/events.py:43-56 | the scan with early exits computes the recursive matching |
| Events.MatchMeans | src/plugins/events.py:43-56 | a match is full coverage, or coverage up to the first > whatever follows |
| Events.EventBus.constructor | src/plugins/events.py:62-64 | no subscriptions |
| Events.EventBus.Subscribe | src/plugins/events.py:66-69 | appended at the end |
| Events.EventBus.Unsubscribe | src/plugins/events.py:71-75 | that callback's entries go, all others stay in order |
| Events.EventBus.Publish | src/plugins/events.py:77-90 | exactly the matching callbacks, in order |
| Events.DeliveredInOrder | src/plugins/events.py:77-90 | callbacks are called in the order of their subscriptions, each as often as it matches |
| Events.ExceptInOrder | src/plugins/events.py:71-75 | what is not unsubscribed keeps its order |
| Events.ExceptOwned | src/plugins/registry.py:440-443 | unsubscribing a plugin's own entries takes out that plugin and nothing else |
| Registry.TableConflict | src/plugins/registry.py:147 | conflicts among the listed manifests are conflicts of the table, in whatever order it is listed |
| Registry.FewerFewerConflicts | src/plugins/registry.py:363-370 | taking a manifest away creates no conflict |
| Registry.RegisterKeeps | src/plugins/registry.py:116-138 | registering keeps the tables, instances and subscriptions consistent |
| Registry.RefreshEstablishes | src/plugins/registry.py:140-180 | a refresh establishes the whole invariant from any consistent state |
| Registry.RefreshIsExact | src/plugins/registry.py:140-180 | after it a plugin is broken if and only if it is in conflict or was broken for another reason, and every reported conflict is current |
| Registry.EnableKeeps | src/plugins/registry.py:289-329 | enabling keeps the invariant whatever the plugin's code does |
| Registry.DisableKeeps | src/plugins/registry.py:331-347 | disabling keeps it |
| Registry.DropKeeps | src/plugins/registry.py:363-364 | so does dropping a plugin that does not run, without a refresh |
| Registry.UnloadKeeps | src/plugins/registry.py:357-370 | so the early return of a failed reload is safe |
| Registry.ResumeKeeps | src/plugins/registry.py:371-378 | enabling or parking after the refresh keeps it |
| Registry.ReloadKeeps | src/plugins/registry.py:349-378 | reload keeps it, also when the package comes back under another id |
| Registry.ApplyKeeps | src/plugins/registry.py:289-430 | every operation keeps it |
| Registry.RunKeepsInv | src/plugins/registry.py:116-430 | after every run: no plugin that is not broken is in conflict, an instance exists exactly when enabled, the bus holds exactly the enabled plugins' declared subscriptions |
| Registry.PublishReaches | src/plugins/registry.py:434-457 | an event reaches exactly the enabled plugins with a matching pattern, none of them in conflict |
| Registry.EnableDecides | src/plugins/registry.py:289-329 | enabling starts what is there, not broken and not running, the outcome follows from the plugin's code, and only success is remembered |
| Registry.DisableDecides | src/plugins/registry.py:331-347 | disabling stops exactly what runs and remembers it |
| Registry.ReloadDecides | src/plugins/registry.py:349-378 | a plugin that ran is started again unless its environment fails or it is in conflict, and the answer is whether it runs; one that did not run stays stopped, with answer yes; the new manifest is in the tables and all others are judged anew |
| Registry.ReloadFails | src/plugins/registry.py:355-376 | an unknown id changes nothing; a failed load or a changed id leaves the plugin out of both tables, with answer no or the missing key |
| Registry.InstallDecides | src/plugins/registry.py:380-404 | the id is returned if and only if source and copy load into a free place; a new plugin's state follows from its environment, its conflicts and what is remembered |
| Registry.RemoveDecides | src/plugins/registry.py:406-430 | removing is refused for what runs or is not there; otherwise the plugin is gone and the others are judged anew |
| Registry.DisableUndoesEnable | src/plugins/registry.py:289-347 | disabling after enabling leaves bus, manifests and all other entries as before |
| Registry.FailedReloadLeavesFault | src/plugins/registry.py:367-370 | after a failed reload another plugin's reported conflict is stale if and only if it was with the reloaded plugin only |
| Registry.FaultOutlivesConflict | src/plugins/registry.py:367-370 | such a state is reached by two installations and one failed reload |
| Registry.InstallClash | src/plugins/registry.py:380-404 | installing a plugin that shares an option string with one present breaks it |
| Registry.RemovalForgetsExactly | src/plugins/registry.py:406-430 | a plugin installed again under a removed id starts as a new one would if and only if the state remembered for it is the default one or its environment fails |
| Registry.ReinstalledStaysDisabled | src/plugins/registry.py:406-430 | it does not after having run: disabled, removed and installed again it starts disabled |
| Registry.Values | src/plugins/registry.py:147 | the values of the manifest table, once each, in some order |
| Registry.PluginRegistry.constructor | src/plugins/registry.py:89-112 | the invariant holds, exactly the given ids are registered from the first package of each, and the state and fault of every plugin follow from its environment, its conflicts, its recorded state and its own code |
| Registry.StartDecides | src/plugins/registry.py:104-112 | registering, refreshing and enabling together leave each plugin in exactly that state, whatever order the loops take |
| Registry.PluginRegistry.RegisterLoaded | src/plugins/registry.py:116-138 | the registration step on the object |
| Registry.PluginRegistry.BreakConflicting | src/plugins/registry.py:148-168 | the first refresh loop breaks exactly the flagged plugins and stops those that ran |
| Registry.PluginRegistry.RestoreResolved | src/plugins/registry.py:169-180 | the second loop restores exactly those whose conflict is gone |
| Registry.PluginRegistry.RefreshConflicts | src/plugins/registry.py:140-180 | both loops together compute the refresh and give the invariant |
| Registry.PluginRegistry.SubscribeEvents | src/plugins/registry.py:434-438 | one new subscription per declared pattern, in order |
| Registry.PluginRegistry.UnsubscribeEvents | src/plugins/registry.py:440-443 | the bus is as before without this plugin |
| Registry.PluginRegistry.EnablePlugin | src/plugins/registry.py:289-329 | the whole new state and the result, for each way the plugin can fail |
| Registry.PluginRegistry.DisablePlugin | src/plugins/registry.py:331-347 | the whole new state and the result |
| Registry.PluginRegistry.ReloadPlugin | src/plugins/registry.py:349-378 | the whole new state and the result, a failed load and a changed id included |
| Registry.PluginRegistry.LoadDir | src/plugins/registry.py:380-404 | the whole new state and the returned id |
| Registry.PluginRegistry.RemovePlugin | src/plugins/registry.py:406-430 | the whole new state; refused while enabled |
| Sessions.CreateKeeps | src/session/manager.py:105-135 | creation keeps the two tables inverse and bounded |
| Sessions.CreateDecides | src/session/manager.py:91-135 | a creation is refused if and only if its sid is empty, a listed session has it, or 50 sessions are listed, with that error; otherwise the session is listed beside the others and found |
| Sessions.IndexDetermined | src/session/manager.py:28-34 | the sid table follows from the session table |
| Sessions.PopKeeps | src/session/manager.py:288-290 | removal keeps them inverse |
| Sessions.SameSize | src/session/manager.py:28-34 | inverse tables have the same size |
| Sessions.SidFinds | src/session/manager.py:227-235 | a sid finds its session if and only if it is not the uid of a different one |
| Sessions.LookupNone | src/session/manager.py:227-235 | nothing is found if and only if no session has the identifier as uid or sid |
| Sessions.SessionManager.constructor | src/session/manager.py:26-34 | empty tables |
| Sessions.SessionManager.CreateSession | src/session/manager.py:91-135 | the error exactly as the listed sessions decide it, and the new tables, or no change |
| Sessions.SessionManager.PopSession | src/session/manager.py:168-171 | the two removals under the lock |
| Sessions.SessionManager.SessionEnded | src/session/manager.py:286-291 | whether this thread took the session, and the new tables |
| Sessions.SessionManager.Find | src/session/manager.py:227-235 | uid first, then sid |
| Sessions.SessionManager.RemoveSession | src/session/manager.py:327-332 | the session found is taken out of both tables; nothing else changes |
| Sessions.TakeStep | src/session/manager.py:280-332 | taking a session out gives it to exactly one thread |
| Sessions.ApplyKeeps | src/session/manager.py:105-364 | every atomic step of every thread keeps the invariant |
| Sessions.RunKeepsInv | src/session/manager.py:105-364 | so does every interleaving |
| Sessions.ExactlyOnce | src/session/manager.py:280-364 | in every interleaving: tables inverse and bounded, never archived or announced twice, never for a live or failed session, exactly once for every other when the threads are done |
| Sessions.CreatesLists | src/session/manager.py:91-135 | in every reachable state a creation with a free, non-empty sid and fewer than 50 sessions lists the session; any other changes nothing |
| Sessions.EndsTakes | src/session/manager.py:286-291 | an end takes just the ended session out and gives it a thread |
| Sessions.RemovesTakes | src/session/manager.py:327-332 | a removal takes the session with that uid, else the one with that sid, and nothing when there is neither |
| Sessions.StartFailsAborts | src/session/manager.py:168-171 | a failed start takes just its own session out, without a thread |
| Sessions.EveryRunFinishes | src/session/manager.py:280-364 | every run can be completed by the threads alone, and then every session ever created is listed, given up by its failed start, or archived and announced exactly once |
| ProcessTree.Climb | src/process/info.py:325-340 | climbing ends for every parent map, adds only ancestors it may reach without leaving the main process behind, and stops only for a stated reason |
| ProcessTree.Collect | src/process/info.py:317-340 | a pid is collected if and only if it is given, or some given process may climb to it: through known parents and past no main process |
| ProcessTree.SettledReaches | src/process/info.py:325-340 | where every process has a reason to add no parent, all that may be climbed to is there |
| ProcessTree.Group | src/process/info.py:342-350 | the children table and the natural roots |
| ProcessTree.Smallest | src/process/info.py:355 | the least pid |
| ProcessTree.Sorted | src/process/info.py:360 | the children in increasing order, each once |
| ProcessTree.BuildNode | src/process/info.py:357-369 | ends for every parent map; the node lists exactly the children not on the path above |
| ProcessTree.TreeCovers | src/process/info.py:357-369 | a tree covers exactly the processes below its top, cycles or not |
| ProcessTree.NodeDistinct | src/process/info.py:357-369 | no process twice in a tree unless its top is its own parent |
| ProcessTree.SelfParentTwice | src/process/info.py:360-363 | such a top is listed twice |
| ProcessTree.ForestCovers | src/process/info.py:342-371 | with a natural root: exactly the processes whose parent chain ends, each once |
| ProcessTree.FallbackCovers | src/process/info.py:354-371 | without one: exactly those below the smallest pid, each once unless that pid is its own parent |
| ProcessTree.RootedWhenAcyclic | src/process/info.py:352-355 | every chain ends if and only if no process is its own ancestor |
| ProcessTree.ForestExact | src/process/info.py:342-371 | every collected process is there exactly once if and only if, with a natural root, nothing is its own ancestor, and, without one, everything is below the smallest pid and that is not its own parent |
| ProcessTree.BuildAll | src/process/info.py:371 | one tree per root |
| ProcessTree.GetProcessTree | src/process/info.py:274-372 | all of it for one call, for every list of pids and every parent map: exactly which pids are collected, what the forest covers with and without a natural root, and exactly when it is complete |

## Left out

- The token file used instead of shared memory outside Windows, the failure of encoding or decoding a token that is not ASCII, and the pause between read attempts.
- `Seqlock`: one reader at a time; several readers do not interact, as none writes.
- Cleanup.CleanupSafeExactly: takes the cleanup as one step between those of a publish and of a read; the steps between its byte stores are in `Zeroing`.
- Zeroing.ReadDuringCleanup: at most one publish is under way during the cleanup and none begins, as with a second one of any token a read can return anything.
- `Ansi`: which characters beyond ASCII are decimal digits is a parameter.
- `Mouse`: byte formatting of the SGR reports, and click, scroll, press, release and hover, which have no path; the wheel names of `_encode_button`, whose base values the drag never uses.
- `Diff`: `SequenceMatcher` itself, the two file-name lines, decimal printing of ranges, and the joining of lines without a line end in the text.
- `Wire`: JSON decoding and signature verification of a line, the error reply to an over-long line, and the clock behind the frame deadline (a timeout is an event). Frames followed by messages are covered only by `LineAfterFrame`. The two exceptions that an immutable buffer raises are one result.
- `Codec`: the replacement-character path for malformed bytes, encoding detection, four-byte GB18030, and the GBK mapping from byte pairs to characters (a pair stands for itself); tails longer than the cap in the trigger matcher cannot arise from valid text.
- `OutputRing`: slices by physical index, clearing, the first-output event, and the lock, under which every method runs whole.
- `ControlText`, `Keys`: JSON decoding is a parameter; key names with letters or white space beyond ASCII.
- `Segments`: the interceptor and plugin chain of a segment and the thread it runs on; offsets are integers.
- `Notifications`: the wake channel, detail texts and timestamps (a publication number stands for the time).
- `CliOptions`: the text of a conflict message, argparse keyword arguments, collecting values, and the list of built-in option strings, which is a parameter.
- `Registry`: what plugin hooks do beyond succeeding or raising, hooks that call back into the registry, automatic loading rules, module unloading, copying and deleting directories, the state file and change callback.
- Dictionaries are maps, so the order in which the registry lists manifests or enables plugins at start is left open; the results are proved not to depend on it.
- `Sessions`: attaching plugins, publishing `session.created`, stopping a session, and a missing history store or callback (both are taken to be present); `stop_all`, which is a loop of removals.
- `ProcessTree`: names, paths and memory figures in the details; the order of natural roots, which is that of a set.
- The token grace period, trigger matching and the snapshot loop, process monitoring, envelope grouping, configuration and command-line parsing: they rest on code or clocks outside these files or would add only easy members.
