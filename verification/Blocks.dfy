/** Command blocks: opened, fed and sealed by shell events. */
module Blocks {
  import opened Bytes
  import opened Wire
  import opened Colour
  import opened Grid

  /** Newlines kept of a block's output. */
  const MAX_BLOCK_OUTPUT_LINES: nat := 5000

  /** `end_line` of a block still running. */
  const BLOCK_END_LINE_RUNNING: int := I32_MIN

  /** `G` is the private grid: an object in the store, its state in the specification. */
  datatype Block<G> = Block(
    id: nat,
    command: seq<byte>,
    startLine: int,
    endLine: int,
    frozen: Option<Snapshot<RawCellSnapshot>>,
    exitCode: Option<int>,
    durationMs: Option<nat>,
    workingDirectory: Option<seq<byte>>,
    gitBranch: Option<seq<byte>>,
    grid: Option<G>,
    isRunning: bool,
    output: seq<byte>,
    outputLines: nat)

  // ---- captured output ----

  function Newlines(s: seq<byte>): nat {
    if |s| == 0 then 0 else (if s[0] == NEWLINE then 1 else 0) + Newlines(s[1..])
  }

  /** The front of `s` up to and including its `n`-th newline. */
  function CutAfter(s: seq<byte>, n: nat): seq<byte> {
    if |s| == 0 || n == 0 then [] else [s[0]] + CutAfter(s[1..], if s[0] == NEWLINE then n - 1 else n)
  }

  lemma {:induction false} CutIsBounded(s: seq<byte>, n: nat)
    ensures CutAfter(s, n) <= s && Newlines(CutAfter(s, n)) <= n
    ensures Newlines(s) < n ==> CutAfter(s, n) == s
    ensures Newlines(s) >= n > 0 ==>
              var c := CutAfter(s, n); Newlines(c) == n && |c| > 0 && c[|c| - 1] == NEWLINE
  {
    if |s| > 0 && n > 0 {
      var m := if s[0] == NEWLINE then n - 1 else n;
      CutIsBounded(s[1..], m);
      var c, tail := CutAfter(s, n), CutAfter(s[1..], m);
      assert c[1..] == tail;
      assert m == 0 ==> tail == [];
      assert s == [s[0]] + s[1..];
    }
  }

  lemma {:induction false} NewlinesConcatenate(a: seq<byte>, b: seq<byte>)
    ensures Newlines(a + b) == Newlines(a) + Newlines(b)
  {
    if |a| == 0 {
      assert a + b == b;
    } else {
      assert (a + b)[1..] == a[1..] + b;
      NewlinesConcatenate(a[1..], b);
    }
  }

  lemma CutOne(s: seq<byte>, n: nat)
    requires |s| > 0 && n > 0
    ensures var m: nat := if s[0] == NEWLINE then n - 1 else n;
            && CutAfter(s, n) == [s[0]] + CutAfter(s[1..], m)
            && (Newlines(CutAfter(s[1..], m)) <= m ==>
                 n - Newlines(CutAfter(s, n)) == m - Newlines(CutAfter(s[1..], m)))
  {
    var m: nat := if s[0] == NEWLINE then n - 1 else n;
    assert CutAfter(s, n)[1..] == CutAfter(s[1..], m);
  }

  /** Appending in pieces equals appending once. */
  lemma {:induction false} CutConcatenates(a: seq<byte>, b: seq<byte>, n: nat)
    ensures Newlines(CutAfter(a, n)) <= n
    ensures CutAfter(a + b, n) == CutAfter(a, n) + CutAfter(b, n - Newlines(CutAfter(a, n)))
  {
    hide CutAfter, Newlines;
    CutIsBounded(a, n);
    if |a| == 0 {
      CutNothing(a, n);
      assert a + b == b;
    } else if n == 0 {
      CutNothing(a, 0);
      CutNothing(a + b, 0);
      CutNothing(b, 0);
    } else {
      var m := if a[0] == NEWLINE then n - 1 else n;
      CutIsBounded(a[1..], m);
      CutConcatenates(a[1..], b, m);
      CutOne(a, n);
      CutOne(a + b, n);
      assert (a + b)[1..] == a[1..] + b;
      assert [a[0]] + (CutAfter(a[1..], m) + CutAfter(b, m - Newlines(CutAfter(a[1..], m)))) ==
             ([a[0]] + CutAfter(a[1..], m)) + CutAfter(b, m - Newlines(CutAfter(a[1..], m)));
    }
  }

  /** Bytes too many show in a cut exactly when what comes before them did not fill it. */
  lemma JunkShowsExactlyWhen(o: seq<byte>, junk: seq<byte>, n: nat)
    requires |junk| > 0
    ensures CutAfter(o + junk, n) == CutAfter(o, n) <==> Newlines(o) >= n
  {
    CutConcatenates(o, junk, n);
    CutIsBounded(o, n);
    var more := CutAfter(junk, n - Newlines(CutAfter(o, n)));
    assert more == [] <==> Newlines(CutAfter(o, n)) == n;
    hide CutAfter, Newlines;
    assert CutAfter(o, n) + [] == CutAfter(o, n);
    assert more != [] ==> |CutAfter(o, n) + more| > |CutAfter(o, n)|;
    if n == 0 { CutNothing(o, 0); }
  }

  /** Bytes without a newline, put in somewhere, show exactly when what comes before them did not fill the cut. */
  lemma InsertionShowsExactlyWhen(o: seq<byte>, junk: seq<byte>, rest: seq<byte>, n: nat)
    requires |junk| > 0 && Newlines(junk) == 0
    ensures CutAfter((o + junk) + rest, n) == CutAfter(o + rest, n) <==> Newlines(o) >= n
  {
    hide *;
    JunkShowsExactlyWhen(o, junk, n);
    CutConcatenates(o + junk, rest, n);
    CutConcatenates(o, rest, n);
    NewlinesConcatenate(o, junk);
    CutIsBounded(o + junk, n);
    CutIsBounded(o, n);
    if Newlines(o) < n {
      assert |(o + junk) + CutAfter(rest, n - Newlines(o))| != |o + CutAfter(rest, n - Newlines(o))|;
    }
  }

  lemma CutNothing(s: seq<byte>, n: nat)
    requires |s| == 0 || n == 0
    ensures CutAfter(s, n) == [] && Newlines([]) == 0
  {
  }

  function Captured(buf: seq<byte>, lines: nat, bytes: seq<byte>): seq<byte> {
    if lines >= MAX_BLOCK_OUTPUT_LINES then buf else buf + CutAfter(bytes, MAX_BLOCK_OUTPUT_LINES - lines)
  }

  /** The stored output is a cut of everything appended so far, and the counter counts its newlines. */
  predicate CapturedFrom(buf: seq<byte>, lines: nat, all: seq<byte>) {
    buf == CutAfter(all, MAX_BLOCK_OUTPUT_LINES) && lines == Newlines(buf)
  }

  lemma CaptureExtends(buf: seq<byte>, lines: nat, all: seq<byte>, bytes: seq<byte>)
    requires CapturedFrom(buf, lines, all)
    ensures var more := Captured(buf, lines, bytes); CapturedFrom(more, Newlines(more), all + bytes)
  {
    CutConcatenates(all, bytes, MAX_BLOCK_OUTPUT_LINES);
    CutIsBounded(all, MAX_BLOCK_OUTPUT_LINES);
    if lines >= MAX_BLOCK_OUTPUT_LINES {
      assert CutAfter(bytes, 0) == [];
      assert buf + [] == buf;
    }
  }

  method AppendCapped(buf: seq<byte>, lines: nat, bytes: seq<byte>) returns (newBuf: seq<byte>, newLines: nat)
    requires lines == Newlines(buf)
    ensures newBuf == Captured(buf, lines, bytes) && newLines == Newlines(newBuf)
  {
    newBuf, newLines := buf, lines;
    var i := 0;
    assert bytes[0..] == bytes;
    while i < |bytes|
      invariant 0 <= i <= |bytes|
      invariant newLines == Newlines(newBuf)
      invariant Captured(newBuf, newLines, bytes[i..]) == Captured(buf, lines, bytes)
    {
      if newLines >= MAX_BLOCK_OUTPUT_LINES { return; }
      var b := bytes[i];
      assert bytes[i..][1..] == bytes[i + 1..];
      NewlinesPush(newBuf, b);
      CaptureOne(newBuf, newLines, bytes[i..]);
      newBuf := newBuf + [b];
      if b == NEWLINE { newLines := newLines + 1; }
      i := i + 1;
    }
    assert newBuf + [] == newBuf;
  }

  lemma {:induction false} NewlinesPush(s: seq<byte>, b: byte)
    ensures Newlines(s + [b]) == Newlines(s) + if b == NEWLINE then 1 else 0
  {
    if |s| == 0 {
      assert s + [b] == [b];
    } else {
      assert (s + [b])[1..] == s[1..] + [b];
      NewlinesPush(s[1..], b);
    }
  }

  lemma CaptureOne(buf: seq<byte>, lines: nat, bytes: seq<byte>)
    requires |bytes| > 0 && lines < MAX_BLOCK_OUTPUT_LINES
    ensures Captured(buf, lines, bytes) ==
            Captured(buf + [bytes[0]], if bytes[0] == NEWLINE then lines + 1 else lines, bytes[1..])
  {
    CutOne(bytes, MAX_BLOCK_OUTPUT_LINES - lines);
    var rest := if bytes[0] == NEWLINE then lines + 1 else lines;
    var tail := CutAfter(bytes[1..], MAX_BLOCK_OUTPUT_LINES - rest);
    assert rest == MAX_BLOCK_OUTPUT_LINES ==> tail == [];
    hide CutAfter;
    assert buf + ([bytes[0]] + tail) == (buf + [bytes[0]]) + tail;
    assert (buf + [bytes[0]]) + [] == buf + [bytes[0]];
  }

  // ---- the store as a value ----

  datatype StoreState = StoreState(
    blocks: seq<Block<GridState>>, nextId: nat, openIndex: Option<nat>, commandStart: Option<nat>)

  const EMPTY := StoreState([], 1, None, None)

  function NewBlock<G>(id: nat, line: int, pwd: Option<seq<byte>>, branch: Option<seq<byte>>): Block<G> {
    Block(id, [], line, BLOCK_END_LINE_RUNNING, None, None, None, pwd, branch, None, true, [], 0)
  }

  function OpenNew(s: StoreState, line: int, pwd: Option<seq<byte>>, branch: Option<seq<byte>>): StoreState {
    StoreState(s.blocks + [NewBlock(s.nextId, line, pwd, branch)], s.nextId + 1, Some(|s.blocks|), s.commandStart)
  }

  /** Body extent of a sealed block: its grid's used rows, or the lines between start and cursor. */
  function SealedEnd(startLine: int, used: Option<nat>, line: int): (end: int)
    ensures I32_MIN <= startLine <= I32_MAX ==> end != BLOCK_END_LINE_RUNNING
  {
    var extent: int := if used.Some? then used.value else WrapI32(SaturatingAddI32(line, 1) - startLine);
    SaturatingAddI32(startLine, Max(extent, 1))
  }

  function SealBlock(em: Emulator, b: Block<GridState>, line: int, exitCode: Option<int>, duration: Option<nat>)
    : Block<GridState>
  {
    var view := if b.grid.Some? then Some(em(b.grid.value.input)) else None;
    var used := if view.Some? then Some(UsedRows(view.value, b.grid.value.cols, b.grid.value.rows)) else None;
    var snap := if view.Some? then Some(Frozen(view.value, b.grid.value.cols, b.grid.value.rows)) else None;
    Block(b.id, b.command, b.startLine, SealedEnd(b.startLine, used, line), snap, exitCode, duration,
          b.workingDirectory, b.gitBranch, None, false, b.output, b.outputLines)
  }

  function Seal(em: Emulator, s: StoreState, line: int, exitCode: Option<int>, duration: Option<nat>): StoreState {
    if s.openIndex.None? || s.openIndex.value >= |s.blocks| || !s.blocks[s.openIndex.value].isRunning then s
    else
      var i := s.openIndex.value;
      s.(blocks := s.blocks[i := SealBlock(em, s.blocks[i], line, exitCode, duration)], openIndex := None)
  }

  function StartCommand(b: Block<GridState>, command: seq<byte>, line: int, cols: nat, rows: nat): Block<GridState> {
    b.(command := command, startLine := line,
       grid := if b.grid.None? then Some(GridState(cols, rows, [Resized(cols, rows)])) else b.grid)
  }

  function Elapsed(start: Option<nat>, now: nat): Option<nat> {
    if start.None? then None else Some(if now >= start.value then now - start.value else 0)
  }

  function Apply(em: Emulator, s: StoreState, e: DcsEvent, line: int, now: nat, cols: nat, rows: nat): StoreState {
    match e
    case Precmd(pwd, branch) => OpenNew(Seal(em, s, line, None, None), line, pwd, branch)
    case Preexec(command) =>
      var ready := if s.openIndex.None? then OpenNew(s, line, None, None) else s;
      var i := ready.openIndex.value;
      if i < |ready.blocks| then
        ready.(blocks := ready.blocks[i := StartCommand(ready.blocks[i], command, line, cols, rows)],
                commandStart := Some(now))
      else ready.(commandStart := Some(now))
    case CommandFinished(code) =>
      Seal(em, s.(commandStart := None), line, Some(code), Elapsed(s.commandStart, now))
  }

  function ResizeBlock(b: Block<GridState>, cols: nat, rows: nat): Block<GridState> {
    if b.grid.None? then b
    else b.(grid := Some(GridState(cols, rows, b.grid.value.input + [Resized(cols, rows)])))
  }

  function ResizeAll(bs: seq<Block<GridState>>, cols: nat, rows: nat): (r: seq<Block<GridState>>)
    ensures |r| == |bs| && forall i :: 0 <= i < |bs| ==> r[i] == ResizeBlock(bs[i], cols, rows)
  {
    if |bs| == 0 then [] else [ResizeBlock(bs[0], cols, rows)] + ResizeAll(bs[1..], cols, rows)
  }

  function Clear(s: StoreState): StoreState {
    StoreState([], s.nextId, None, None)
  }

  /** Bytes to the open block's grid, if there is one. */
  function FeedBlock(b: Block<GridState>, bytes: seq<byte>): Block<GridState> {
    if b.grid.None? then b else b.(grid := Some(b.grid.value.(input := b.grid.value.input + Typed(bytes))))
  }

  function CaptureBlock(b: Block<GridState>, bytes: seq<byte>): Block<GridState> {
    if b.grid.None? then b
    else
      var more := Captured(b.output, b.outputLines, bytes);
      b.(output := more, outputLines := Newlines(more))
  }

  function UpdateOpen(s: StoreState, f: Block<GridState> -> Block<GridState>): StoreState {
    if s.openIndex.None? || s.openIndex.value >= |s.blocks| then s
    else var i := s.openIndex.value; s.(blocks := s.blocks[i := f(s.blocks[i])])
  }

  function FeedOpen(s: StoreState, bytes: seq<byte>): StoreState {
    UpdateOpen(s, b => FeedBlock(b, bytes))
  }

  function CaptureOpen(s: StoreState, bytes: seq<byte>): StoreState {
    UpdateOpen(s, b => CaptureBlock(b, bytes))
  }

  // ---- the invariant ----

  /** What every block satisfies, given whether it is the open one. */
  predicate BlockOk<G>(b: Block<G>, open: bool) {
    && b.isRunning == open
    && (b.isRunning <==> b.endLine == BLOCK_END_LINE_RUNNING)
    && (b.grid.Some? ==> b.isRunning)
    && (b.isRunning ==> b.frozen.None? && b.exitCode.None? && b.durationMs.None?)
    && I32_MIN <= b.startLine <= I32_MAX
    && b.outputLines == Newlines(b.output) <= MAX_BLOCK_OUTPUT_LINES
  }

  predicate IdsIncrease<G>(bs: seq<Block<G>>, next: nat) {
    && (forall i, j :: 0 <= i < j < |bs| ==> bs[i].id < bs[j].id)
    && (forall i :: 0 <= i < |bs| ==> bs[i].id < next)
  }

  /** At most one block runs: the last one, named by `openIndex`; only it may hold a grid; ids increase. */
  predicate Coherent<G>(bs: seq<Block<G>>, next: nat, open: Option<nat>) {
    && (open.Some? ==> open.value + 1 == |bs|)
    && (forall i :: 0 <= i < |bs| ==> BlockOk(bs[i], open == Some(i)))
    && IdsIncrease(bs, next)
  }

  predicate Inv(s: StoreState) {
    Coherent(s.blocks, s.nextId, s.openIndex)
  }

  lemma SealKeepsInv(em: Emulator, s: StoreState, line: int, exitCode: Option<int>, duration: Option<nat>)
    requires Inv(s)
    ensures Inv(Seal(em, s, line, exitCode, duration))
    ensures Seal(em, s, line, exitCode, duration).openIndex == None
  {
  }

  lemma OpenKeepsInv(s: StoreState, line: int, pwd: Option<seq<byte>>, branch: Option<seq<byte>>)
    requires Inv(s) && s.openIndex == None && I32_MIN <= line <= I32_MAX
    ensures Inv(OpenNew(s, line, pwd, branch))
  {
  }

  lemma ApplyKeepsInv(em: Emulator, s: StoreState, e: DcsEvent, line: int, now: nat, cols: nat, rows: nat)
    requires Inv(s) && I32_MIN <= line <= I32_MAX
    ensures Inv(Apply(em, s, e, line, now, cols, rows))
  {
    match e
    case Precmd(pwd, branch) =>
      SealKeepsInv(em, s, line, None, None);
      OpenKeepsInv(Seal(em, s, line, None, None), line, pwd, branch);
    case Preexec(command) =>
      if s.openIndex.None? { OpenKeepsInv(s, line, None, None); }
    case CommandFinished(code) =>
      SealKeepsInv(em, s.(commandStart := None), line, Some(code), Elapsed(s.commandStart, now));
  }

  lemma CaptureKeepsCap(buf: seq<byte>, lines: nat, bytes: seq<byte>)
    requires lines == Newlines(buf) <= MAX_BLOCK_OUTPUT_LINES
    ensures Newlines(Captured(buf, lines, bytes)) <= MAX_BLOCK_OUTPUT_LINES
  {
    if lines < MAX_BLOCK_OUTPUT_LINES {
      var cut := CutAfter(bytes, MAX_BLOCK_OUTPUT_LINES - lines);
      CutIsBounded(bytes, MAX_BLOCK_OUTPUT_LINES - lines);
      NewlinesConcatenate(buf, cut);
    }
  }

  lemma UpdateKeepsInv(s: StoreState, bytes: seq<byte>)
    requires Inv(s)
    ensures Inv(FeedOpen(s, bytes)) && Inv(CaptureOpen(s, bytes))
  {
    if s.openIndex.Some? {
      var b := s.blocks[s.openIndex.value];
      CaptureKeepsCap(b.output, b.outputLines, bytes);
    }
  }

  lemma CaptureNothing(s: StoreState)
    requires Inv(s)
    ensures CaptureOpen(s, []) == s
  {
    if s.openIndex.Some? {
      var i := s.openIndex.value;
      var b := s.blocks[i];
      assert BlockOk(b, true);
      assert b.output + [] == b.output;
      assert CaptureBlock(b, []) == b;
      assert s.blocks[i := b] == s.blocks;
    }
  }

  /** A block without a grid takes neither input nor captured output. */
  lemma NoGridNoUpdate(s: StoreState, bytes: seq<byte>)
    requires s.openIndex.Some? && s.openIndex.value < |s.blocks| ==> s.blocks[s.openIndex.value].grid.None?
    ensures FeedOpen(s, bytes) == s && CaptureOpen(s, bytes) == s
  {
    if s.openIndex.Some? && s.openIndex.value < |s.blocks| {
      var i := s.openIndex.value;
      assert s.blocks[i := s.blocks[i]] == s.blocks;
    }
  }

  // ---- whole runs ----

  datatype Op =
    | Event(event: DcsEvent, line: int, now: nat, cols: nat, rows: nat)
    | Feed(bytes: seq<byte>)
    | Capture(bytes: seq<byte>)
    | Resize(cols: nat, rows: nat)
    | Reset

  function Do(em: Emulator, s: StoreState, op: Op): StoreState {
    match op
    case Event(event, line, now, cols, rows) => Apply(em, s, event, line, now, cols, rows)
    case Feed(bytes) => FeedOpen(s, bytes)
    case Capture(bytes) => CaptureOpen(s, bytes)
    case Resize(cols, rows) => s.(blocks := ResizeAll(s.blocks, cols, rows))
    case Reset => Clear(s)
  }

  function DoAll(em: Emulator, s: StoreState, ops: seq<Op>): StoreState
    decreases |ops|
  {
    if |ops| == 0 then s else DoAll(em, Do(em, s, ops[0]), ops[1..])
  }

  /** Ids handed out by a run, in order. */
  function Issued(em: Emulator, s: StoreState, ops: seq<Op>): seq<nat>
    decreases |ops|
  {
    if |ops| == 0 then []
    else
      var next := Do(em, s, ops[0]);
      (if next.nextId > s.nextId then [next.blocks[|next.blocks| - 1].id] else []) + Issued(em, next, ops[1..])
  }

  predicate LinesFit(ops: seq<Op>) {
    forall i :: 0 <= i < |ops| && ops[i].Event? ==> I32_MIN <= ops[i].line <= I32_MAX
  }

  lemma DoKeepsInv(em: Emulator, s: StoreState, op: Op)
    requires Inv(s) && (op.Event? ==> I32_MIN <= op.line <= I32_MAX)
    ensures Inv(Do(em, s, op))
  {
    match op
    case Event(event, line, now, cols, rows) => ApplyKeepsInv(em, s, event, line, now, cols, rows);
    case Feed(bytes) => UpdateKeepsInv(s, bytes);
    case Capture(bytes) => UpdateKeepsInv(s, bytes);
    case Resize(cols, rows) =>
    case Reset =>
  }

  /** Every run of events, output, resizes and resets keeps the store coherent. */
  lemma {:induction false} RunsKeepInv(em: Emulator, s: StoreState, ops: seq<Op>)
    requires Inv(s) && LinesFit(ops)
    ensures Inv(DoAll(em, s, ops))
    decreases |ops|
  {
    if |ops| > 0 {
      DoKeepsInv(em, s, ops[0]);
      RunsKeepInv(em, Do(em, s, ops[0]), ops[1..]);
    }
  }

  lemma DoKeepsSealed(em: Emulator, s: StoreState, op: Op, i: nat)
    requires Inv(s) && !op.Reset? && i < |s.blocks| && !s.blocks[i].isRunning
    ensures i < |Do(em, s, op).blocks| && Do(em, s, op).blocks[i] == s.blocks[i]
  {
  }

  /** A sealed block never changes again, until a reset drops it. */
  lemma {:induction false} SealedBlocksNeverChange(em: Emulator, s: StoreState, ops: seq<Op>, i: nat)
    requires Inv(s) && LinesFit(ops) && Reset !in ops
    requires i < |s.blocks| && !s.blocks[i].isRunning
    ensures i < |DoAll(em, s, ops).blocks| && DoAll(em, s, ops).blocks[i] == s.blocks[i]
    decreases |ops|
  {
    if |ops| > 0 {
      assert ops[0] in ops;
      DoKeepsInv(em, s, ops[0]);
      DoKeepsSealed(em, s, ops[0], i);
      SealedBlocksNeverChange(em, Do(em, s, ops[0]), ops[1..], i);
    }
  }

  lemma DoIssues(em: Emulator, s: StoreState, op: Op)
    requires Inv(s)
    ensures var next := Do(em, s, op);
            if next.nextId > s.nextId then
              next.nextId == s.nextId + 1 && |next.blocks| > 0 && next.blocks[|next.blocks| - 1].id == s.nextId
            else next.nextId == s.nextId
  {
  }

  /** No id is ever handed out twice, not even across resets: a run issues consecutive ids. */
  lemma {:induction false} IdsAreNeverReused(em: Emulator, s: StoreState, ops: seq<Op>)
    requires Inv(s) && LinesFit(ops)
    ensures DoAll(em, s, ops).nextId == s.nextId + |Issued(em, s, ops)|
    ensures forall k :: 0 <= k < |Issued(em, s, ops)| ==> Issued(em, s, ops)[k] == s.nextId + k
    decreases |ops|
  {
    if |ops| > 0 {
      var next := Do(em, s, ops[0]);
      DoKeepsInv(em, s, ops[0]);
      DoIssues(em, s, ops[0]);
      IdsAreNeverReused(em, next, ops[1..]);
    }
  }

  // ---- durations ----

  /** Time of the latest Preexec since the block now open was opened. */
  function OwnStep(own: Option<nat>, op: Op): Option<nat> {
    match op
    case Event(event, _, now, _, _) => if event.Preexec? then Some(now) else None
    case Reset => None
    case _ => own
  }

  function OwnStart(own: Option<nat>, ops: seq<Op>): Option<nat>
    decreases |ops|
  {
    if |ops| == 0 then own else OwnStart(OwnStep(own, ops[0]), ops[1..])
  }

  predicate OpenHasGrid(s: StoreState) {
    s.openIndex.Some? && s.openIndex.value < |s.blocks| && s.blocks[s.openIndex.value].grid.Some?
  }

  predicate OwnClock(s: StoreState, own: Option<nat>) {
    (OpenHasGrid(s) <==> own.Some?) && (own.Some? ==> s.commandStart == own)
  }

  lemma OwnStepKeepsClock(em: Emulator, s: StoreState, own: Option<nat>, op: Op)
    requires Inv(s) && OwnClock(s, own)
    ensures OwnClock(Do(em, s, op), OwnStep(own, op))
  {
  }

  lemma {:induction false} OwnStartIsTheClock(em: Emulator, s: StoreState, own: Option<nat>, ops: seq<Op>)
    requires Inv(s) && LinesFit(ops) && OwnClock(s, own)
    ensures OwnClock(DoAll(em, s, ops), OwnStart(own, ops))
    decreases |ops|
  {
    if |ops| > 0 {
      DoKeepsInv(em, s, ops[0]);
      OwnStepKeepsClock(em, s, own, ops[0]);
      hide Inv, OwnClock, Do, OwnStep;
      OwnStartIsTheClock(em, Do(em, s, ops[0]), OwnStep(own, ops[0]), ops[1..]);
    }
  }

  /** A recorded duration is the open block's own exactly when that block had its own Preexec, or no clock was
    running at all: the clock outlives a block that a Precmd sealed. */
  lemma DurationIsOwnExactlyWhen(em: Emulator, ops: seq<Op>, code: int, line: int, now: nat)
    requires LinesFit(ops) && DoAll(em, EMPTY, ops).openIndex.Some?
    requires I32_MIN <= line <= I32_MAX
    ensures var s := DoAll(em, EMPTY, ops);
            var i := s.openIndex.value;
            var sealed := Apply(em, s, CommandFinished(code), line, now, 1, 1).blocks;
            && i < |sealed|
            && (sealed[i].durationMs == Elapsed(OwnStart(None, ops), now)
                <==> OpenHasGrid(s) || s.commandStart.None?)
  {
    RunsKeepInv(em, EMPTY, ops);
    OwnStartIsTheClock(em, EMPTY, None, ops);
  }

  /** A block that never ran a command can be sealed with another command's duration. */
  lemma DurationOfAnotherBlock(em: Emulator, command: seq<byte>, t0: nat, t1: nat)
    requires t0 <= t1
    ensures var precmd := Precmd(None, None);
            var ops := [Event(precmd, 0, t0, 80, 24), Event(Preexec(command), 0, t0, 80, 24),
                        Event(precmd, 0, t1, 80, 24),
                        Event(CommandFinished(0), 0, t1, 80, 24)];
            var bs := DoAll(em, EMPTY, ops).blocks;
            |bs| == 2 && bs[0].durationMs == None && bs[1].command == [] && bs[1].durationMs == Some(t1 - t0)
  {
    var precmd := Precmd(None, None);
    var ops := [Event(precmd, 0, t0, 80, 24), Event(Preexec(command), 0, t0, 80, 24), Event(precmd, 0, t1, 80, 24),
                Event(CommandFinished(0), 0, t1, 80, 24)];
    var s1 := Do(em, EMPTY, ops[0]);
    var s2 := Do(em, s1, ops[1]);
    var s3 := Do(em, s2, ops[2]);
    var s4 := Do(em, s3, ops[3]);
    assert DoAll(em, EMPTY, ops) == s4 by {
      assert ops[1..][1..][1..][1..] == [];
      assert DoAll(em, s3, ops[1..][1..][1..]) == s4;
      assert DoAll(em, s2, ops[1..][1..]) == s4;
    }
  }

  /** ONE COMMAND'S LIFE. From any coherent store: prompt, command, output, finish. Its block gets the next id, keeps
    directory and branch, starts at the line where the command began, carries the exit code, the time since its own
    Preexec and the frozen picture of its output, and the store is left with nothing open. */
  lemma CommandLife(em: Emulator, s: StoreState, pwd: Option<seq<byte>>, branch: Option<seq<byte>>, command: seq<byte>,
                    output: seq<byte>, code: int, l0: int, l1: int, l2: int, t0: nat, t1: nat, t2: nat, cols: nat,
                    rows: nat)
    requires Inv(s) && I32_MIN <= l0 <= I32_MAX && I32_MIN <= l1 <= I32_MAX && I32_MIN <= l2 <= I32_MAX && t1 <= t2
    ensures var prompt := Apply(em, s, Precmd(pwd, branch), l0, t0, cols, rows);
            var ran := CaptureOpen(FeedOpen(Apply(em, prompt, Preexec(command), l1, t1, cols, rows), output), output);
            var r := Apply(em, ran, CommandFinished(code), l2, t2, cols, rows);
            var v := em([Resized(cols, rows)] + Typed(output));
            && r.openIndex == None && r.commandStart == None && |r.blocks| == |s.blocks| + 1
            && r.blocks[|s.blocks|] ==
               Block(s.nextId, command, l1, SealedEnd(l1, Some(UsedRows(v, cols, rows)), l2),
                     Some(Frozen(v, cols, rows)),
                     Some(code), Some(t2 - t1), pwd, branch, None, false, CutAfter(output, MAX_BLOCK_OUTPUT_LINES),
                     Newlines(CutAfter(output, MAX_BLOCK_OUTPUT_LINES)))
  {
    hide UsedRows, Frozen, Typed, CutAfter, SealedEnd;
    SealKeepsInv(em, s, l0, None, None);
    assert [] + CutAfter(output, MAX_BLOCK_OUTPUT_LINES) == CutAfter(output, MAX_BLOCK_OUTPUT_LINES);
  }

  /** Sealing without a grid: the block reaches through the cursor's line and has a line of its own, as far as 32 bits
    reach, exactly when the span fits 32 bits, or is so far below that it wraps to the end that is wanted anyway. */
  lemma SealedWithoutGrid(startLine: int, line: int)
    requires I32_MIN <= startLine <= I32_MAX && I32_MIN <= line <= I32_MAX
    ensures var span := Min(line + 1, I32_MAX) - startLine;
            SealedEnd(startLine, None, line) == Min(Max(line, startLine) + 1, I32_MAX)
            <==> span <= I32_MAX && (span >= I32_MIN || startLine >= I32_MAX - 1)
  {
  }

  // ---- what the host is told ----

  /** `body_rows` of the block view handed over the C interface. */
  function BodyRows(em: Emulator, b: Block<GridState>): nat {
    if b.isRunning then
      if b.grid.Some? then UsedRows(em(b.grid.value.input), b.grid.value.cols, b.grid.value.rows) else 1
    else Max(WrapI32(b.endLine - b.startLine), 0)
  }

  /** Sealing with a grid fixes the body: the line span, the frozen rows and the reported rows are one number, exactly
    when the 16-bit row count did not wrap to zero and the span does not leave 32 bits; or both happened at once. */
  lemma SealedRowsAgree(em: Emulator, b: Block<GridState>, line: int, exitCode: Option<int>, duration: Option<nat>)
    requires b.grid.Some? && I32_MIN <= b.startLine <= I32_MAX
    ensures var g := b.grid.value; var v := em(g.input); var sealed := SealBlock(em, b, line, exitCode, duration);
            var used := (v.history + VisibleUsed(v, g.cols, g.rows)) % U16;
            && sealed.frozen.Some?
            && (sealed.endLine - sealed.startLine == sealed.frozen.value.rows == BodyRows(em, sealed)
                <==> if used == 0 then b.startLine == I32_MAX else b.startLine + used <= I32_MAX)
  {
  }

  /** A sealed block has at least one body row, exactly when it did not start at the last line of 32 bits. */
  lemma SealedHasARowExactlyWhen(em: Emulator, b: Block<GridState>, line: int, exitCode: Option<int>,
                                 duration: Option<nat>)
    requires I32_MIN <= b.startLine <= I32_MAX
    ensures BodyRows(em, SealBlock(em, b, line, exitCode, duration)) >= 1 <==> b.startLine < I32_MAX
  {
    hide Frozen, VisibleUsed;
  }
}
