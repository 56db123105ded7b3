# BedTerm: the terminal byte pipeline and its neighbours, verified

BedTerm is a remote terminal. A shell-integration script makes the remote shell announce prompts, commands and exit codes
as device control strings in the terminal's own byte stream. The client finds those frames, opens and seals command blocks,
routes every byte to the global terminal or to the running block's private grid, captures the block's output, and freezes
the grid when the block is sealed. This project models that pipeline, statement by statement where the program updates
state, and proves what it promises; and it does the same for four neighbouring components with algorithms of their own.

`dafny verify dfyconfig.toml` checks everything.

## How it is built

Each component that changes state is a class or a loop, proved against a function on values; the theorems are about those
functions and about whole runs of them.

- `Bytes`, `Vte`, `Utf8`: integer widths, the escape-sequence parser as far as control strings can see it (ECMA-48
  sections 5.6, 8.3.27 and 8.3.143), UTF-8 acceptance (RFC 3629 section 4).
- `Wire`, `WirePrinter`: the payload. The client's hex decoder (RFC 4648 section 8) and naive JSON lookups (strings of
  RFC 8259 section 7), the shell's printer, and that they invert each other for every value.
- `Sniffer`, `Stream`, `Scanner`: recovering events from arbitrary chunks, with positions; streams of pieces; the
  stateless scanner.
- `Colour`, `Grid`, `Blocks`, `Store`: cell colours, snapshots, the block state machine as a value and as an object over
  live grid objects.
- `TerminalModel`, `TerminalObject`: the feed. `Routing` is its meaning, one byte at a time, with no calls, slices or
  offsets; `Refinement`, `Capturing` and `Runs` prove the feed refines it over whole runs; `Session` reads blocks off a
  session's pieces and ties shell variables to blocks. `Hazards`, `Leaks` and `Splits` give the cuts on which the feed
  departs from its meaning, by stopping, by capturing frame bytes, and at a split terminator, and exactly when;
  `AltScreen` is the mirrored alternate screen, `Slices` what one more cut does to it.
- `Atlas`, `Painting`: the glyph atlas, and what its texture shows. `Base64`, `ConnectForm`: saving a host.
  `HostsStore`: the saved-hosts index. `Scroll`, `BlockList`: scrolling and geometry of the block list.

The terminal emulator is an arbitrary function from the input it was given to the screen it shows, so every statement about
grids holds for any emulator.

## Where the code and its comments part

The model follows the code.

- A frame hooked in an earlier call reports an offset into that earlier chunk, although the comment says it reports none
  (rust-core/bedterm-core/src/dcs.rs:108-110, :156, :178). The feed then slices with it. `TerminalModel.FeedPanicsExactlyWhen`
  and `Hazards.FrameAcrossCallsPanicsExactlyWhen` say when that stops the program. Short of that, frame bytes are captured
  as output: `Leaks.SpanningFrameIsCapturedExactlyWhen` says when that shows, `Leaks.ThreeWritesLeakExactlyWhen` is the
  stream of rust-core/bedterm-core/src/term.rs:147-151.
- The backslash of a 7-bit terminator is absorbed only in the same call (dcs.rs:160-176):
  `Splits.SplitTerminatorMisroutesExactlyWhen`, `Splits.SplitTerminatorLeaksExactlyWhen` and, as an input,
  `Splits.AnnouncementLeaksItsBackslash`.
- Mirroring works on whole slices (term.rs:200-229): plain output that shares a slice with the sequence that enters the
  alternate screen reaches the global terminal, the same output in a slice of its own does not, and block boundaries are
  measured on that terminal. `Slices.ExtraCutShowsExactlyWhen` and `Slices.PlainOutputIsMirroredWithItsSlice`;
  `Slices.SlicesSplitFlagsExactlyWhen` and `Slices.StraddlingBreaksMirroring` for a sequence that is cut.
- The scanner's comment promises to mirror the sniffer. A `$d` frame with parameters or an abort separates them, a body
  with bytes the parser drops and an abort in front of a frame do, too: `Scanner.ScannerAgreesExactlyWhen`,
  `Scanner.ParametersSeparateThem`.
- The clock of a command survives a Precmd seal (rust-core/bedterm-core/src/blocks.rs:204-210):
  `Blocks.DurationIsOwnExactlyWhen`.
- Terminal glyphs stop at the texture's edge, not at the interface section, and neither packer spares the white block
  (rust-core/bedterm-core/src/renderer/atlas.rs:161-184, :263): `Painting.CachedSlotsShowExactlyWhen` and
  `Painting.IconIsPaintedOver`, `Painting.SolidStaysExactlyWhen` and `Painting.SolidIsPaintedOver`.
- A sealed block has at least one body row, although a comment says empty output collapses it
  (rust-core/bedterm-core/src/blocks_ffi.rs:128-131, blocks.rs:341): `Blocks.SealedHasARowExactlyWhen`.
- Padding is subtracted before it is validated (rust-core/bedterm-ios/src/connect_form_vm.rs:546-547):
  `Base64.DecodingPanicsExactlyWhen`.
- The two address parsers disagree on `[a]b:22`, whose port is taken while the host keeps it, and on `[a]:x`, whose tail
  is dropped (rust-core/bedterm-ios/src/connect_form/model.rs:93-144): `ConnectForm.ParsersAgreeExactlyWhen`.
- The shell's escaper reads lines, so a final newline of a value is never sent
  (rust-core/bedterm-ios/assets/bedterm-integration.sh:45-69).

## Model

| member | source | states |
|---|---|---|
| `Session.ShellCommandLeavesItsBlock` | rust-core/bedterm-core/src/term.rs:138-230 | end to end: the shell prints any command, output and exit status among any other messages and text; however the stream is cut outside event frames and terminators, no feed stops and one sealed block carries the command's text, its 32-bit exit code, the output up to the 5000th newline and the frozen picture of exactly that output and its closing frame |
| `Session.ShellCommandInOneCall` | rust-core/bedterm-core/src/term.rs:138-193 | the plainest case of it, with no condition but the text's: a whole command in one call to a new terminal |
| `Session.CommandLeavesItsBlock` | rust-core/bedterm-core/src/term.rs:138-230 | the same for any well-formed pieces: the block's grid got exactly the bytes behind the Preexec frame through the next sealing frame, and the global terminal's own bytes are those outside all such spans, once each and in order |
| `Session.SessionIsPlayed` | rust-core/bedterm-core/src/term.rs:138-193 | for any pieces under any cut that does not split a 7-bit terminator, a completed run holds what playing the pieces one by one says; if each event frame lies inside one call, every feed completes and the stored outputs are the capped outputs |
| `Session.StreamIsPlayed` | rust-core/bedterm-core/src/dcs.rs:122-188 | the bytewise reference machine, run over the rendered pieces, is the piecewise reading of them |
| `Session.OutsideIsOutsideTheSpans` | rust-core/bedterm-core/src/term.rs:139-143 | bytes of no block are those outside the spans from a Preexec frame to the next other event frame |
| `Session.CommandSpan` | rust-core/bedterm-core/src/term.rs:138-193 | wherever a command's pieces stand in a session, its block is left with exactly that command's bytes, output, code and name, and later pieces never change it |
| `Session.WholeFramesNeverPanic` | rust-core/bedterm-core/src/term.rs:166-193 | a call that holds its event frames whole never slices out of range |
| `Session.WholeRunsNeverPanic` | rust-core/bedterm-core/src/term.rs:138-193 | nor does any run of such calls, resizes and resets |
| `Session.BegunFramesAreInside` | rust-core/bedterm-core/src/dcs.rs:122-157 | a call that begins between escape sequences holds every frame it completes |
| `Session.GroundCutsAreWhole` | rust-core/bedterm-core/src/dcs.rs:122-157 | cutting only outside escape sequences leaves every event frame inside one call |
| `Session.CleanCutsSplitNothing` | rust-core/bedterm-core/src/dcs.rs:160-176 | never cutting between an ESC and a backslash is enough for the routing theorem's condition |
| `Runs.RunsRefine` | rust-core/bedterm-core/src/term.rs:138-230 | routing: for every run of feeds, resizes and resets whose cuts split no 7-bit terminator, the terminal agrees with the bytewise reference: the same blocks with the same ids, names, directories, branches and codes, the same grid inputs, frozen pictures of exactly those, the same bytes and resizes outside; and as long as no slice was mirrored, the whole input of the global terminal and every block's first and last line |
| `Runs.RunsRefineByCalls` | rust-core/bedterm-core/src/term.rs:138-230 | with no condition on the cuts: the terminal refines the reference that settles a pending event between calls |
| `Runs.RunsKeep` | rust-core/bedterm-core/src/term.rs:168-193 | captured output: if moreover each event frame lies inside one call, every block's stored output is its input without event frames, cut right after the 5000th newline |
| `Runs.CutsDoNotMatter` | rust-core/bedterm-core/src/term.rs:138-230 | two cuttings of one stream leave blocks with the same ids, names, codes, directories, branches, grids and pictures, and the same unmirrored input of the global terminal; if neither dispatched a slice that was mirrored, the whole input of the global terminal and the blocks' first and last lines are the same, too; if event frames lie inside calls, so are the stored outputs (durations depend on the times of the calls and are not compared) |
| `Runs.DispatchMarksExactlyWhen` | rust-core/bedterm-core/src/term.rs:212-229 | a slice is mirrored exactly when it finds the open grid on the alternate screen before or after it |
| `Slices.ExtraCutShowsExactlyWhen` | rust-core/bedterm-core/src/term.rs:200-229 | bytes that complete no event, fed whole or with one cut more, from any state: an open grid gets the same input; the global terminal does exactly when the grid is on the alternate screen at the cut just if it is so before or after, or is so at both ends |
| `Slices.PlainOutputIsMirroredWithItsSlice` | rust-core/bedterm-core/src/term.rs:212-229 | an input that shows it: behind a real Preexec frame, plain text and the sequence that enters the alternate screen; in one call the global terminal gets the text, too, in two it does not |
| `Runs.FeedsAreOneStream` | rust-core/bedterm-core/src/term.rs:138-193 | the reference over the calls is the reference over the concatenated stream |
| `Runs.FeedRefines` | rust-core/bedterm-core/src/term.rs:138-193 | one call of the routing refinement, from any agreeing state |
| `Runs.FeedKeeps` | rust-core/bedterm-core/src/term.rs:168-193 | one call of the capture theorem |
| `Runs.ResizeRefines` | rust-core/bedterm-core/src/term.rs:261-270 | a resize reaches the global terminal and every live grid and no sealed block |
| `Runs.ResetRefines` | rust-core/bedterm-core/src/term.rs:478-480 | a reset drops the blocks and nothing else |
| `Runs.InitiallyAgrees` | rust-core/bedterm-core/src/term.rs:121-136 | a new terminal agrees with the empty reference |
| `Refinement.WalkRefines` | rust-core/bedterm-core/src/term.rs:158-193 | the slicing loop with its moving cursor delivers what the bytewise machine delivers |
| `Refinement.CutEvent` | rust-core/bedterm-core/src/dcs.rs:122-188 | one located event cut off the front: offsets of the program and lengths of the reference name the same frame |
| `Refinement.HappenRefines` | rust-core/bedterm-core/src/blocks.rs:194-245 | an event changes the block store as it changes the reference ledger |
| `Refinement.DispatchRefines` | rust-core/bedterm-core/src/term.rs:198-230 | a slice goes to the running block's grid or outside, mirrored bytes not counted twice |
| `Capturing.WalkKeeps` | rust-core/bedterm-core/src/term.rs:166-193 | the content slices between frames are the reference output, frame by frame |
| `Capturing.EventKept` | rust-core/bedterm-core/src/term.rs:168-184 | after one event, what was captured is the delivered input with that frame retracted |
| `Capturing.CutStart` | rust-core/bedterm-core/src/dcs.rs:150-157 | the reported frame start is exactly the frame's length before its end, when the frame lies inside the call |
| `Capturing.LinkedStep` | rust-core/bedterm-core/src/dcs.rs:129-157 | last-ESC and frame-start offsets agree with the clock that counts bytes |
| `Hazards.FrameAcrossCallsPanicsExactlyWhen` | rust-core/bedterm-core/src/dcs.rs:108-178 | from any terminal between escape sequences: text, then a valid frame cut anywhere in its body, ended in either form or aborted; the feed that completes it stops exactly when the text was longer than that feed's whole input |
| `Leaks.SpanningFrameIsCapturedExactlyWhen` | rust-core/bedterm-core/src/term.rs:168-184 | from any agreeing state: the call that ends a frame begun in an earlier call leaves the captured outputs right if no grid was attached or the block's output without the frame had its 5000 newlines already; and only then, when the event seals the block, whatever follows, or the call ends with the frame |
| `Leaks.FrameInThreeWrites` | rust-core/bedterm-core/src/term.rs:147-151 | the three writes of one frame, from any terminal between escape sequences: the feeds complete, and the outputs are right exactly when no grid was attached or the output had its 5000 newlines already |
| `Leaks.ThreeWritesLeakExactlyWhen` | rust-core/bedterm-core/src/term.rs:147-151 | an input that shows it, from a new terminal: a command announced, its output, then a valid frame in three calls; what is stored is the output exactly when that had its 5000 newlines already |
| `Leaks.RunsAreCounted` | rust-core/bedterm-core/src/dcs.rs:122-157 | what the two above ask of a state holds after every run, with no condition on the cuts |
| `Splits.SplitTerminatorMisroutesExactlyWhen` | rust-core/bedterm-core/src/dcs.rs:172-177 | a cut between ESC and backslash misroutes the backslash exactly when the event attaches or takes away the grid, whatever follows in the call |
| `Splits.SplitTerminatorLeaksExactlyWhen` | rust-core/bedterm-core/src/dcs.rs:172-177 | such a cut leaves the captured outputs right exactly when the event is no Preexec, or the output of the block behind it had its 5000 newlines already, whatever follows in the call |
| `Splits.AnnouncementLeaksItsBackslash` | rust-core/bedterm-core/src/dcs.rs:165-171 | an input that shows both: the announcement of a command to a new terminal, cut there; the backslash is the first input of the command's grid and its stored output |
| `TerminalModel.FeedPanicsExactlyWhen` | rust-core/bedterm-core/src/term.rs:166-184 | for every state and input: a feed slices out of range exactly when it begins inside one of our frames whose recorded start exceeds this call's length and the frame completes here |
| `TerminalModel.LocatedInRange` | rust-core/bedterm-core/src/dcs.rs:122-188 | all reported offsets advance within the call, save for that one stale start |
| `TerminalModel.CurrentLineIsOnTheActiveGrid` | rust-core/bedterm-core/src/term.rs:251-259 | block boundaries are measured on the open block's grid if it has one, else below the global scrollback |
| `TerminalModel.LastRunningIsOpen` | rust-core/bedterm-core/src/term.rs:252 | the backwards search for a running block finds the open one |
| `TerminalObject.Terminal.Feed` | rust-core/bedterm-core/src/term.rs:138-193 | the loop with its cursor: completes or stops as the value model says, with the same new state |
| `TerminalObject.Terminal.FeedSegment` | rust-core/bedterm-core/src/term.rs:168-184 | one turn of it: slice, content, event |
| `TerminalObject.Terminal.FeedRest` | rust-core/bedterm-core/src/term.rs:189-192 | the bytes behind the last frame |
| `TerminalObject.Terminal.DispatchChunk` | rust-core/bedterm-core/src/term.rs:198-230 | routes one slice and samples the alternate screen before and after |
| `TerminalObject.Terminal.FeedRunningGrid` | rust-core/bedterm-core/src/term.rs:217-223 | feeds the open grid only, and tells whether the alternate screen was up on either side |
| `TerminalObject.Terminal.CaptureOutputBytes` | rust-core/bedterm-core/src/term.rs:236-245 | appends to the open block's output if it has a grid |
| `TerminalObject.Terminal.CurrentGridAbsoluteLine` | rust-core/bedterm-core/src/term.rs:251-259 | the reversed search over the blocks computes the current line |
| `TerminalObject.Terminal.Resize` | rust-core/bedterm-core/src/term.rs:261-270 | new state of a resize, live grids included |
| `TerminalObject.Terminal.ResetBlocks` | rust-core/bedterm-core/src/term.rs:478-480 | new state of a reset |
| `TerminalObject.Terminal.constructor` | rust-core/bedterm-core/src/term.rs:121-136 | initial state |
| `AltScreen.AltScreenIsMirrored` | rust-core/bedterm-core/src/term.rs:198-230 | over every run: if no escape sequence straddles a dispatched slice and the flags agree whenever a grid is attached, global and block grid agree on the alternate screen after every slice and every event until the block is sealed |
| `AltScreen.DispatchMirrors` | rust-core/bedterm-core/src/term.rs:200-229 | one slice keeps the flags together |
| `AltScreen.ModeTellsTheActiveScreen` | rust-core/bedterm-core/src/term.rs:295-314 | the union reported to the host is the flag of the screen it should draw |
| `Slices.SlicesSplitFlagsExactlyWhen` | rust-core/bedterm-core/src/term.rs:212-229 | for every emulator that is lawful at rest: from agreeing flags, two slices leave the global terminal and the open grid on different screens exactly when the grid enters the alternate screen in the second slice only, and that slice by itself does not take the global terminal there |
| `Slices.StraddlingBreaksMirroring` | rust-core/bedterm-core/src/term.rs:212-223 | an input that shows it: behind a real Preexec frame, the sequence that enters the alternate screen cut before its last byte leaves the global terminal behind; in one call it does not |
| `Sniffer.FeedingConcatenates` | rust-core/bedterm-core/src/dcs.rs:101-103 | sniffing is a homomorphism: feeding a then b leaves the same parser, ownership flag, buffer and events as feeding a+b, for all bytes and states |
| `Sniffer.CutsAreInvisible` | rust-core/bedterm-core/src/dcs.rs:101-103 | any cutting of a stream leaves the same events and state |
| `Sniffer.LocatedEventsAreTheEvents` | rust-core/bedterm-core/src/dcs.rs:122-188 | the positioned feed reports exactly the events of the plain feed |
| `Sniffer.TrackingRuns` | rust-core/bedterm-core/src/dcs.rs:140-142 | and leaves the same core |
| `Sniffer.BackslashAfterEvent` | rust-core/bedterm-core/src/dcs.rs:172-174 | taking the backslash of a 7-bit terminator ahead of time is the ordinary step back to ground |
| `Sniffer.DcsSniffer.FeedWithPositions` | rust-core/bedterm-core/src/dcs.rs:122-188 | the loop with its moving index computes the located list, the new core, the queue and the frame-start field |
| `Sniffer.DcsSniffer.Feed` | rust-core/bedterm-core/src/dcs.rs:101-103 | the plain feed runs the core and appends its events |
| `Sniffer.DcsSniffer.Advance` | rust-core/bedterm-core/src/dcs.rs:299-327 | one byte through the parser and its callback |
| `Sniffer.DcsSniffer.OnHook` | rust-core/bedterm-core/src/dcs.rs:300-311 | claims a bare `$d` string and clears the buffer |
| `Sniffer.DcsSniffer.OnPut` | rust-core/bedterm-core/src/dcs.rs:313-317 | collects only in a frame of ours |
| `Sniffer.DcsSniffer.OnUnhook` | rust-core/bedterm-core/src/dcs.rs:319-327 | queues the parsed event, if any, and gives the frame up |
| `Stream.WireRoundTrip` | rust-core/bedterm-core/src/dcs.rs:122-188 | print any messages, put any text of whole escape sequences between them, end frames either way, cut anywhere, also inside frames and terminators: the queue is exactly what was said |
| `Stream.StreamIsLocated` | rust-core/bedterm-core/src/dcs.rs:122-188 | on any stream of text, styled text, `$d` frames with any body, and other device control strings with any private marker, parameters, intermediates and data, each ended in either form or aborted, the located list is each valid frame from its ESC to one past its terminator |
| `Stream.LocatingConcatenates` | rust-core/bedterm-core/src/dcs.rs:122-188 | positions, too, are computed piece by piece, unless a terminator is cut in two |
| `Stream.DeviceHeader` | rust-core/bedterm-core/src/dcs.rs:300-311 | intermediates and final byte decide whose string it is, whatever the parameters; a private marker makes it foreign |
| `Stream.StyledIsSilent` | rust-core/bedterm-core/src/dcs.rs:299-327 | text that is silent from a new sniffer is silent from every idle one |
| `Stream.CsiIsUnheard` | rust-core/bedterm-core/src/dcs.rs:299-311 | every whole CSI sequence is such text |
| `Stream.PlainIsUnheard` | rust-core/bedterm-core/src/dcs.rs:299-311 | so is all ESC-free text |
| `Stream.UnheardConcatenates` | rust-core/bedterm-core/src/dcs.rs:299-311 | and any such texts one after the other |
| `Scanner.ScannerAgreesExactlyWhen` | rust-core/bedterm-core/src/dcs.rs:233-280 | on any stream of text, bare `$d` frames and other device control strings, whole or aborted: the stateless scanner and the stateful sniffer return the same events at the same places exactly when every piece the sniffer hears is a bare frame that ends in a terminator and holds no byte the parser drops, and no aborted string before it keeps the scanner searching |
| `Scanner.ScannerAgreesWithSniffer` | rust-core/bedterm-core/src/dcs.rs:233-280 | in particular they do when all strings are terminated, frames hold printable bytes and no `$d` string carries parameters |
| `Scanner.StreamIsScanned` | rust-core/bedterm-core/src/dcs.rs:233-280 | what the scanner returns on all such streams, from any offset, also past an aborted string |
| `Scanner.ParametersSeparateThem` | rust-core/bedterm-core/src/dcs.rs:247-264 | an input of each kind: the sniffer takes every valid `$d` frame; the scanner skips it exactly if it carries parameters or is aborted |
| `Scanner.FindSt` | rust-core/bedterm-core/src/dcs.rs:285-297 | the first terminator |
| `Scanner.ScanDcsEvents` | rust-core/bedterm-core/src/dcs.rs:233-280 | the index loop computes the scan |
| `WirePrinter.StringLookupIsFaithful` | rust-core/bedterm-core/src/dcs.rs:381-399 | no spoofing: whatever the printed values hold, the naive search returns the value of the first member of that name, and nothing for an absent or non-string one |
| `WirePrinter.IntLookupIsFaithful` | rust-core/bedterm-core/src/dcs.rs:486-501 | the same for integers, and nothing outside 64 bits |
| `WirePrinter.SearchFinds` | rust-core/bedterm-core/src/dcs.rs:381-399 | the key search stops at the real key, for all values before it |
| `WirePrinter.NoKeyInToken` | rust-core/bedterm-ios/assets/bedterm-integration.sh:45-69 | an escaped quote never closes a key pattern |
| `WirePrinter.ReadEscaped` | rust-core/bedterm-core/src/dcs.rs:404-468 | reading an escaped string gives the string back |
| `WirePrinter.MessageIsHeard` | rust-core/bedterm-core/src/dcs.rs:333-353 | every message the shell prints is parsed to what it said: non-UTF-8 text and an empty branch are absent, an exit status is cut to 32 bits |
| `WirePrinter.MessageIsHeardAsJson` | rust-core/bedterm-ios/assets/bedterm-integration.sh:85-113 | the same at the JSON level |
| `WirePrinter.HexRoundTrip` | rust-core/bedterm-core/src/dcs.rs:358-375 | decoding the hex of any bytes gives them back |
| `WirePrinter.DecimalRoundTrip` | rust-core/bedterm-core/src/dcs.rs:486-501 | reading printed digits gives the number back |
| `Wire.DecodeHex` | rust-core/bedterm-core/src/dcs.rs:358-375 | the pair loop computes the decoding, odd lengths and foreign characters included |
| `Wire.FindValueStart` | rust-core/bedterm-core/src/dcs.rs:381-399 | the search loop finds the first key and skips blanks |
| `Wire.ReadJsonString` | rust-core/bedterm-core/src/dcs.rs:404-468 | the escape loop computes the string or fails |
| `Wire.DecodeUnicodeEscape` | rust-core/bedterm-core/src/dcs.rs:438-457 | four hex digits to a character, surrogates refused |
| `Wire.FindIntInValue` | rust-core/bedterm-core/src/dcs.rs:486-501 | the digit loop computes the number or fails |
| `Wire.FindStringInValue` | rust-core/bedterm-core/src/dcs.rs:482-484 | lookup and read |
| `Wire.ParseFrameBody` | rust-core/bedterm-core/src/dcs.rs:333-353 | dispatch on the hook |
| `Grid.FreezeThenResolve` | rust-core/bedterm-core/src/block_grid.rs:156-295 | deferred colour: a frozen grid resolved later under any palette is the snapshot painted with that palette, field for field, cell for cell |
| `Grid.RowCountsAgree` | rust-core/bedterm-core/src/block_grid.rs:98-114 | used rows, both snapshots' row counts and cells per column agree, and are the true count exactly when history and used rows fit 16 bits |
| `Grid.RowsAt` | rust-core/bedterm-core/src/block_grid.rs:175-215 | cells lie row-major, oldest history line first |
| `Grid.LastContentIsMaximum` | rust-core/bedterm-core/src/block_grid.rs:120-143 | the last content row is the maximum of the cursor row and the lowest inked row |
| `Grid.BlockGrid.LastContentRow` | rust-core/bedterm-core/src/block_grid.rs:120-143 | the backwards scan with its mutable best computes it |
| `Grid.BlockGrid.CountUsedRows` | rust-core/bedterm-core/src/block_grid.rs:98-114 | history plus used screen rows in 16 bits |
| `Grid.BlockGrid.SnapshotRaw` | rust-core/bedterm-core/src/block_grid.rs:234-295 | the nested loops freeze the grid |
| `Grid.BlockGrid.PaintSnapshot` | rust-core/bedterm-core/src/block_grid.rs:156-230 | the nested loops paint the grid |
| `Grid.BlockGrid.Feed` | rust-core/bedterm-core/src/block_grid.rs:57-62 | input is appended |
| `Grid.BlockGrid.Resize` | rust-core/bedterm-core/src/block_grid.rs:64-72 | geometry changes with the input |
| `Grid.FlagsCanBeRead` | rust-core/bedterm-core/src/block_grid.rs:190-212 | what the number tells: each of six flags can be read back from its own bit, strikethrough and the rest leave no trace, no other bit is ever set |
| `Grid.PackFlags` | rust-core/bedterm-core/src/block_grid.rs:190-212 | the loop-free packing: a bit of the result is set exactly if its flag was |
| `Colour.DeferredColour` | rust-core/bedterm-core/src/snapshot.rs:130-216 | for every colour and palette, keeping the intent and resolving later is resolving now |
| `Colour.PackKeepsChannels` | rust-core/bedterm-core/src/term.rs:563-587 | packing is opaque and keeps each channel |
| `Blocks.RunsKeepInv` | rust-core/bedterm-core/src/blocks.rs:194-348 | over every run: at most one running block, the last, named by the open index; only it has a grid; running iff the end line is the sentinel; ids increase; the output cap holds |
| `Blocks.ApplyKeepsInv` | rust-core/bedterm-core/src/blocks.rs:194-245 | one event keeps that |
| `Blocks.SealedBlocksNeverChange` | rust-core/bedterm-core/src/blocks.rs:310-348 | a sealed block never changes until a reset |
| `Blocks.IdsAreNeverReused` | rust-core/bedterm-core/src/blocks.rs:17-20 | a run issues consecutive ids, resets included |
| `Blocks.CommandLife` | rust-core/bedterm-core/src/blocks.rs:194-348 | prompt, command, output, finish: every field of the resulting block |
| `Blocks.DurationIsOwnExactlyWhen` | rust-core/bedterm-core/src/blocks.rs:204-243 | a recorded duration is the block's own exactly when it had its own Preexec or no clock was running |
| `Blocks.DurationOfAnotherBlock` | rust-core/bedterm-core/src/blocks.rs:204-210 | a block that never ran a command can be sealed with another command's duration |
| `Blocks.SealedRowsAgree` | rust-core/bedterm-core/src/blocks.rs:333-343 | line span, frozen rows and reported body rows are one number exactly when the 16-bit row count did not wrap to zero and the span does not leave 32 bits, or both happened at once |
| `Blocks.SealedHasARowExactlyWhen` | rust-core/bedterm-core/src/blocks.rs:341 | a sealed block reports at least one body row exactly when it did not start at the last line of 32 bits |
| `Blocks.SealedWithoutGrid` | rust-core/bedterm-core/src/blocks.rs:335-341 | for all 32-bit lines: without a grid the block reaches through the cursor's line and has at least one, exactly when the span fits 32 bits or wraps to the end that is wanted anyway |
| `Blocks.CutConcatenates` | rust-core/bedterm-core/src/blocks.rs:113-123 | appending captured output in pieces is appending once |
| `Blocks.CutIsBounded` | rust-core/bedterm-core/src/blocks.rs:22-26 | the stored output is the front of the input through its 5000th newline |
| `Blocks.CaptureExtends` | rust-core/bedterm-core/src/blocks.rs:113-123 | a stored cut stays the cut of everything appended |
| `Blocks.JunkShowsExactlyWhen` | rust-core/bedterm-core/src/blocks.rs:113-123 | bytes too many show in the stored output exactly when what comes before them did not fill it |
| `Blocks.AppendCapped` | rust-core/bedterm-core/src/blocks.rs:113-123 | the loop pushes bytes and counts newlines |
| `Store.BlockStore.Apply` | rust-core/bedterm-core/src/blocks.rs:194-245 | events on live records and grid objects have the specified effect |
| `Store.BlockStore.OpenNew` | rust-core/bedterm-core/src/blocks.rs:280-302 | pushes a running record and names it |
| `Store.BlockStore.SealWith` | rust-core/bedterm-core/src/blocks.rs:310-348 | freezes and drops the grid, fixes the extent |
| `Store.BlockStore.Execute` | rust-core/bedterm-core/src/blocks.rs:211-236 | names the command and attaches one grid per block |
| `Store.BlockStore.FeedOpenGrid` | rust-core/bedterm-core/src/term.rs:200-222 | feeding the open grid changes that grid only |
| `Store.BlockStore.CaptureOutput` | rust-core/bedterm-core/src/blocks.rs:95-101 | appends to the open record |
| `Store.BlockStore.ResizeEach` | rust-core/bedterm-core/src/blocks.rs:267-273 | the loop resizes every live grid |
| `Store.BlockStore.ResizeGrids` | rust-core/bedterm-core/src/blocks.rs:267-273 | with the specified new state |
| `Store.BlockStore.Reset` | rust-core/bedterm-core/src/blocks.rs:167-172 | drops blocks, open index and clock, keeps the id counter |
| `Painting.RunsAreSafe` | rust-core/bedterm-core/src/renderer/atlas.rs:132-398 | packing is safe over every run from the constructor on: slots lie on the texture, slots of one section since its last reset are pairwise disjoint, and the caches name exactly those slots |
| `Atlas.RunsKeepInv` | rust-core/bedterm-core/src/renderer/atlas.rs:227-398 | the same from any safe state |
| `Atlas.CachedSlotsAreShown` | rust-core/bedterm-core/src/renderer/atlas.rs:240-398 | while terminal cells stay above the interface section, every texel of every cached slot shows the bitmap uploaded for it |
| `Atlas.CellsAboveWhileCursorIs` | rust-core/bedterm-core/src/renderer/atlas.rs:257-265 | which holds as long as the cursor's row ends above that section |
| `Atlas.CachedSlotsStay` | rust-core/bedterm-core/src/renderer/atlas.rs:227-234 | a cached glyph keeps its slot for good, a cached panel until the next reset |
| `Atlas.CapacityIsExact` | rust-core/bedterm-core/src/renderer/atlas.rs:257-268 | requests for one size succeed exactly ⌊2048/w⌋·⌊2048/h⌋ times, row by row, and every later one fails |
| `Atlas.PlacedOnTextureExactlyWhen` | rust-core/bedterm-core/src/renderer/atlas.rs:257-268 | a slot handed out lies on the texture exactly when it is no wider than the texture |
| `Painting.RequestKeepsAllShownExactlyWhen` | rust-core/bedterm-core/src/renderer/atlas.rs:227-398 | one request keeps every cached slot showing its own bitmap exactly when the slot it is handed lies on no cached one |
| `Painting.CachedSlotsShowExactlyWhen` | rust-core/bedterm-core/src/renderer/atlas.rs:227-398 | over every run, resets included: every cached slot shows its own bitmap all along exactly when no slot handed out lies on a cached one |
| `Painting.OnlyTheOtherSection` | rust-core/bedterm-core/src/renderer/atlas.rs:257-268 | that can only be a slot of the other section |
| `Painting.IconIsShownExactlyWhen` | rust-core/bedterm-core/src/renderer/atlas.rs:257-268 | a cached icon of the program and then distinct narrow characters: all cached slots are shown exactly as long as the characters fit above the interface section, ⌊1024/h⌋·⌊2048/w⌋ of them |
| `Painting.IconIsPaintedOver` | rust-core/bedterm-core/src/renderer/atlas.rs:257-268 | an input that shows it: 5376 characters of 16 by 24 texels leave the icon, one more paints over it while it stays cached |
| `Painting.RequestKeepsSolidExactlyWhen` | rust-core/bedterm-core/src/renderer/atlas.rs:161-184 | one request keeps the white block for underlines exactly when the slot it is handed does not end past 2044 both ways |
| `Painting.SolidStaysExactlyWhen` | rust-core/bedterm-core/src/renderer/atlas.rs:161-184 | over every run: the block stays white all along exactly when no slot handed out does |
| `Painting.CellsPaintSolidExactlyWhen` | rust-core/bedterm-core/src/renderer/atlas.rs:161-184 | distinct narrow characters leave the block white, unless 2048 leaves less than 4 over by both metrics; then exactly those before the first slot in the corner do |
| `Painting.SolidIsPaintedOver` | rust-core/bedterm-core/src/renderer/atlas.rs:161-184 | an input that shows it: 8191 characters of 16 by 32 texels leave it white, one more does not |
| `Atlas.SolidIsIntactExactlyWhen` | rust-core/bedterm-core/src/renderer/atlas.rs:161-184 | in any safe state: the white block is intact exactly when no slot handed out touches it |
| `Atlas.Compose` | rust-core/bedterm-core/src/renderer/atlas.rs:270-301 | the blit never writes outside the slot buffer and leaves the raster centred, on the baseline, clipped |
| `Atlas.CopyRow` | rust-core/bedterm-core/src/renderer/atlas.rs:290-299 | one row of it, with the program's range guard |
| `Atlas.GlyphAtlas.constructor` | rust-core/bedterm-core/src/renderer/atlas.rs:132-206 | metrics at least 1, the white block, printable ASCII preloaded |
| `Atlas.GlyphAtlas.Ensure` | rust-core/bedterm-core/src/renderer/atlas.rs:227-234 | cached keys change nothing |
| `Atlas.GlyphAtlas.RasterizeAndUpload` | rust-core/bedterm-core/src/renderer/atlas.rs:240-310 | cursor moves, wrap, failure and upload |
| `Atlas.GlyphAtlas.EnsureUIGlyph` | rust-core/bedterm-core/src/renderer/atlas.rs:315-336 | lookup by lead code point and size, else place |
| `Atlas.GlyphAtlas.EnsureIconSlot` | rust-core/bedterm-core/src/renderer/atlas.rs:341-354 | lookup by icon, else place |
| `Atlas.GlyphAtlas.PackUIBitmap` | rust-core/bedterm-core/src/renderer/atlas.rs:358-398 | shelf placement with the row's tallest bitmap |
| `Atlas.GlyphAtlas.ResetUICaches` | rust-core/bedterm-core/src/renderer/atlas.rs:210-216 | caches and cursor reset, texture kept |
| `Base64.DecodingInverts` | rust-core/bedterm-ios/src/connect_form_vm.rs:537-584 | base64 inverts for every byte string under any inserted whitespace |
| `Base64.DecodingPanicsExactlyWhen` | rust-core/bedterm-ios/src/connect_form_vm.rs:546-547 | the decoder's length subtraction underflows exactly when more than three quarters of the characters are trailing pads; four pads do |
| `Base64.EncodeBytes` | rust-core/bedterm-ios/src/connect_form_vm.rs:505-533 | the encoding loop |
| `Base64.DecodeText` | rust-core/bedterm-ios/src/connect_form_vm.rs:537-584 | the decoder with its early exits |
| `Base64.DecodeChunks` | rust-core/bedterm-ios/src/connect_form_vm.rs:560-583 | the group loop, pads looked at one by one |
| `Base64.StripSpace` | rust-core/bedterm-ios/src/connect_form_vm.rs:542 | whitespace filter |
| `Base64.CountPadding` | rust-core/bedterm-ios/src/connect_form_vm.rs:546 | trailing pads |
| `ConnectForm.SavingIsFaithful` | rust-core/bedterm-ios/src/connect_form_vm.rs:270-463 | saving succeeds exactly when validation accepts, emits one auth family, the fresh secret where one was required and the stored one byte for byte otherwise, and the emitted key decodes to those bytes |
| `ConnectForm.ReadyExactlyWhenTheSecretIsSet` | rust-core/bedterm-ios/src/connect_form_vm.rs:196-315 | over every run of edits, ready to save is: good address and the secret of the chosen kind reported as set |
| `ConnectForm.UntouchedSecretsSurvive` | rust-core/bedterm-ios/src/connect_form_vm.rs:366-463 | reopen a saved host, edit anything but its secrets: a save under the stored auth kind emits the stored secrets |
| `ConnectForm.EditsKeepHonest` | rust-core/bedterm-ios/src/connect_form_vm.rs:149-158 | no run of edits ever shows a stored secret in a field |
| `ConnectForm.NewFormsAreHonest` | rust-core/bedterm-ios/src/connect_form_vm.rs:149-158 | nor does a new or prefilled form |
| `ConnectForm.PassphraseIsEmittedExactlyWhenSet` | rust-core/bedterm-ios/src/connect_form_vm.rs:230-245 | a passphrase is saved exactly when a key is and a passphrase is reported as set |
| `ConnectForm.StoredPassphraseOutlivesItsKey` | rust-core/bedterm-ios/src/connect_form_vm.rs:427-455 | a fresh key keeps the passphrase of the key it replaces |
| `ConnectForm.ResavingIsStableExactlyWhen` | rust-core/bedterm-ios/src/connect_form/model.rs:93-144 | saving, reopening and saving untouched gives the same outcome exactly when the stored host is one the address parser takes as it stands, with no other port in it |
| `ConnectForm.PastedAddress` | rust-core/bedterm-ios/src/connect_form/model.rs:93-144 | a pasted `host:port` or `[host]:port` is taken apart, whatever the port field says |
| `ConnectForm.PlainHostsStay` | rust-core/bedterm-ios/src/connect_form/model.rs:93-121 | a host survives normalising exactly when it is trimmed and not splittable |
| `ConnectForm.ParsersAgreeExactlyWhen` | rust-core/bedterm-ios/src/connect_form/model.rs:93-144 | for every address: something is taken off the host exactly if a port is found, unless a bracketed host has a tail that is no port, or a bracket goes on and one port ends the address |
| `ConnectForm.ParsersDisagree` | rust-core/bedterm-ios/src/connect_form/model.rs:93-144 | an input of each kind: `[a]:x` and `[a]b:22` |
| `ConnectForm.ConnectFormVM.Save` | rust-core/bedterm-ios/src/connect_form_vm.rs:328-362 | validate, record the error or clear it, resolve, encode |
| `ConnectForm.ConnectFormVM.PrefillEdit` | rust-core/bedterm-ios/src/connect_form_vm.rs:124-164 | stored secrets go to the mode, never to the fields |
| `ConnectForm.ConnectFormVM.ResetToAdd` | rust-core/bedterm-ios/src/connect_form_vm.rs:116-119 | blank, port 22 |
| `ConnectForm.ConnectFormVM.Change` | rust-core/bedterm-ios/src/connect_form_vm.rs:168-194 | the setters and their touched flags |
| `HostsStore.ReconcilingIndexesTheMap` | rust-core/bedterm-ios/src/hosts_store.rs:314-339 | reconciling lists every key and nothing else: survivors in stored order, then orphans sorted; each once exactly when the stored order named no survivor twice |
| `HostsStore.ReconcilingIgnoresEnumeration` | rust-core/bedterm-ios/src/hosts_store.rs:316-332 | whatever order the keys are listed in |
| `HostsStore.ReconcilingIsIdempotent` | rust-core/bedterm-ios/src/hosts_store.rs:314-339 | twice is once |
| `HostsStore.NothingToDoExactlyWhen` | rust-core/bedterm-ios/src/hosts_store.rs:336-338 | nothing is rewritten exactly when the order names the keys |
| `HostsStore.RunsKeepIndex` | rust-core/bedterm-ios/src/hosts_store.rs:452-481 | runs of saves, deletes and listings from an empty store keep it so |
| `HostsStore.SaveThenDelete` | rust-core/bedterm-ios/src/hosts_store.rs:452-481 | deleting a host just added restores the store |
| `HostsStore.MemoryBackend.ReconcileOrder` | rust-core/bedterm-ios/src/hosts_store.rs:314-339 | conditional write, resolved list |
| `HostsStore.MemoryBackend.SaveHost` | rust-core/bedterm-ios/src/hosts_store.rs:452-462 | insert, append to the order if new |
| `HostsStore.MemoryBackend.DeleteHost` | rust-core/bedterm-ios/src/hosts_store.rs:473-481 | remove, retain, write if shorter |
| `Scroll.MomentumStops` | rust-core/bedterm-ios/src/block_list/scroll.rs:137-156 | from below 2^k points per second, with ticks at least 8 ms apart, momentum is exhausted within 22k ticks; every tick leaves the offset in range; the anchor then follows the bottom exactly within 24 points of it |
| `Scroll.CoastingEnds` | rust-core/bedterm-ios/src/scroll_physics.rs:101-110 | the same from any decay bound |
| `Scroll.TickShrinks` | rust-core/bedterm-ios/src/block_list/scroll.rs:137-156 | one tick shrinks the velocity or ends the momentum |
| `Scroll.HalfLife` | rust-core/bedterm-ios/src/block_list/scroll.rs:32-34 | 22 decay intervals halve the velocity |
| `Scroll.MovesStayInRange` | rust-core/bedterm-ios/src/block_list/scroll.rs:64-172 | while the layout stands, no run of moves leaves the range |
| `Scroll.SettlingLandsNear` | rust-core/bedterm-ios/src/block_list/scroll.rs:76-92 | settling lands at the bottom if followed; a fixed anchor is restored exactly from more than half a point away, so the offset stays out of range exactly when it was, within that |
| `Scroll.DragsAreMemoryless` | rust-core/bedterm-ios/src/block_list/scroll.rs:107-117 | a drag depends on its start and last translation only |
| `Scroll.ThreeSlotsSuffice` | rust-core/bedterm-ios/src/scroll_physics.rs:45-75 | the bounded ring gives the velocity of the whole history |
| `Scroll.VelocityEstimator.Push` | rust-core/bedterm-ios/src/scroll_physics.rs:45-51 | push and drain keep the last three |
| `Scroll.VelocityEstimator.Reset` | rust-core/bedterm-ios/src/scroll_physics.rs:53-55 | forgets the history |
| `Scroll.VelocityEstimator.CurrentVelocity` | rust-core/bedterm-ios/src/scroll_physics.rs:63-75 | two-point velocity of the history |
| `Scroll.ScrollPhysics.Step` | rust-core/bedterm-ios/src/scroll_physics.rs:101-110 | displacement, then decay |
| `Scroll.BlockListScrollState.Advance` | rust-core/bedterm-ios/src/block_list/scroll.rs:137-156 | one momentum tick |
| `Scroll.BlockListScrollState.ApplyScrollPosition` | rust-core/bedterm-ios/src/block_list/scroll.rs:76-92 | anchor applied at rest |
| `Scroll.BlockListScrollState.BeginPanning` | rust-core/bedterm-ios/src/block_list/scroll.rs:95-102 | stops momentum, restarts the estimator |
| `Scroll.BlockListScrollState.UpdatePanning` | rust-core/bedterm-ios/src/block_list/scroll.rs:107-117 | clamped drag, new anchor |
| `Scroll.BlockListScrollState.EndPanning` | rust-core/bedterm-ios/src/block_list/scroll.rs:121-133 | momentum above 50 points per second |
| `Scroll.BlockListScrollState.PageScroll` | rust-core/bedterm-ios/src/block_list/scroll.rs:159-172 | pages by 80 % of the viewport |
| `Scroll.BlockListScrollState.ClampOffset` | rust-core/bedterm-ios/src/block_list/scroll.rs:64-68 | values in range stay, others go to the nearer bound, and the flag tells exactly whether the value was out of range by more than rounding |
| `BlockList.RangesTile` | rust-core/bedterm-ios/src/block_list/layout.rs:40-60 | a height lies in the content exactly when some range holds it, and then exactly one does |
| `BlockList.RangesAbut` | rust-core/bedterm-ios/src/block_list/layout.rs:40-60 | ranges abut in order |
| `BlockList.PinnedHeaderIsRight` | rust-core/bedterm-ios/src/block_list/sticky.rs:31-69 | the header of exactly the block at the scroll position is pinned, in (-header, 0], its band never covers the next header, and it is pushed up exactly when the next one is nearer than a band |
| `BlockList.HitsAgreeWithRanges` | rust-core/bedterm-ios/src/block_list/selection.rs:145-171 | a touch hits the body of the block whose range holds it, and nothing over headers |
| `BlockList.ComputeBlockRanges` | rust-core/bedterm-ios/src/block_list/layout.rs:40-60 | the accumulating loop |
| `BlockList.ContentHeight` | rust-core/bedterm-ios/src/block_list/layout.rs:62-73 | the sum is the last bottom edge |
| `BlockList.StickyActiveIndex` | rust-core/bedterm-ios/src/block_list/sticky.rs:31-42 | the loop's last match |
| `BlockList.BuildStickyDescriptor` | rust-core/bedterm-ios/src/block_list/sticky.rs:45-69 | descriptor of the active block |
| `BlockList.BlockHitTest` | rust-core/bedterm-ios/src/block_list/selection.rs:145-171 | the first body that holds the point |
| `Bytes.WrapI32` | rust-core/bedterm-core/src/dcs.rs:350 | `as i32`: the one 32-bit number that differs by a multiple of 2^32 |
| `Bytes.SaturatingAddI32` | rust-core/bedterm-core/src/blocks.rs:337 | the sum, or the bound it passes |

## Left out

- The library emulator: how text, SGR and cursor escapes change a screen is not part of this model; it is an arbitrary function of its input. `AltScreen` assumes of it only that, from rest, the alternate-screen flag evolves from the flag and the input.
- The library parser: its source is not part of this repository; `Vte` follows the state machine that dcs.rs:161-171 describes, with the CSI states merged and UTF-8 decoding in the ground state left to the emulator.
- Zero-row terminals: the visible-row clamp panics on them in the program, so the row counting and snapshot methods ask for at least one row.
- Wrapping of 16-bit row counts is modelled; overflow of 32-bit pixel and cell arithmetic in the atlas and of 64-bit ids is not.
- Time: the clock is a parameter, durations are in its milliseconds.
- Floating point: lengths, velocities and times are real numbers; the power in the decay is any function that shrinks and, over a whole interval, shrinks by at least the decay. Infinities and NaN do not occur.
- Command-phase capture, agent detection, event-queue draining and the C interface apart from the body-row formula: members settled by reading one branch.
- The terminal's own snapshots, which also carry the strikethrough flag that block snapshots lack, and its scrolling.
- Rasterising, icon decoding and the texture upload itself: their results are parameters, and the texture is the list of uploads it was given.
- Keychain and user-defaults backends, injected test entries and the listing's JSON: the in-memory backend is the map model. A Keychain write that fails after its delete is therefore not modelled.
- Random identifiers: the new id is a parameter. Localised messages are named, not worded.
- Map enumeration order is a parameter, and the library sort is modelled by insertion.
- Selection dragging, all UIKit code, Metal encoding, the SSH bridge and the Swift sources.
- Device control strings whose header the parser gives up (a second private marker, a parameter behind an intermediate): not among the pieces of `Stream` and `Scanner`; the theorems about all bytes cover them.
- Runs.RunsRefine: asks that no cut separates the two bytes of a 7-bit terminator, because the program does not meet the reference then; Runs.RunsRefineByCalls states what it does on all cuts, Splits.SplitTerminatorMisroutesExactlyWhen when that differs.
- Runs.RunsKeep: asks that each event frame lies inside one call, because frame bytes are captured otherwise; Leaks.SpanningFrameIsCapturedExactlyWhen states when that shows.
- Runs.CutsDoNotMatter: does not compare durations, because they are differences of the times of the calls.
- Leaks.SpanningFrameIsCapturedExactlyWhen: for a second Preexec inside a running command with more input behind it in the same call, only the sufficient half, because later newlines can push the extra bytes out of the stored output again.
- TerminalObject.Terminal.constructor: asks for at least one row, because the program panics on a block of none.
- TerminalObject.Terminal.Resize: likewise.
- Grid.BlockGrid.CountUsedRows: likewise.
- Grid.BlockGrid.SnapshotRaw: likewise.
- Grid.BlockGrid.PaintSnapshot: likewise.
- Store.BlockStore.Apply: likewise.
- Store.BlockStore.Execute: likewise.
- Store.BlockStore.ResizeGrids: likewise.
