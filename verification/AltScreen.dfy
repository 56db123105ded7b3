/** The alternate screen, mirrored: while a block's grid shows it, the global terminal gets the same bytes. */
module AltScreen {
  import opened Bytes
  import opened Wire
  import opened Sniffer
  import opened Grid
  import opened TerminalModel
  import opened Runs
  import Blocks

  predicate Alt(em: Emulator, input: seq<GridInput>) {
    em(input).alt
  }

  /** An input sequence after which the terminal's own parser is at rest. */
  type Rest = seq<GridInput> -> bool

  /** From rest, what more input does to the alternate-screen flag depends on the flag and that input alone. */
  ghost predicate Lawful(em: Emulator, atRest: Rest) {
    forall x, y, more ::
      atRest(x) && atRest(y) && Alt(em, x) == Alt(em, y) ==>
        Alt(em, x + more) == Alt(em, y + more) && atRest(x + more) == atRest(y + more)
  }

  /** Both terminals at rest, with the same flag. */
  ghost predicate FlagsAgree(em: Emulator, atRest: Rest, t: TermState) {
    var grid := OpenGrid(t.store);
    grid.Some? ==> Together(em, atRest, Seen(t.global), grid.value.input)
  }

  ghost predicate Together(em: Emulator, atRest: Rest, x: seq<GridInput>, y: seq<GridInput>) {
    atRest(x) && atRest(y) && Alt(em, x) == Alt(em, y)
  }

  lemma LawfulAt(em: Emulator, atRest: Rest, more: seq<GridInput>, x: seq<GridInput>, y: seq<GridInput>)
    requires Lawful(em, atRest) && Together(em, atRest, x, y) && atRest(y + more)
    ensures Together(em, atRest, x + more, y + more)
  {
  }

  /** No escape sequence straddles the end of this slice: the open grid is at rest behind it. */
  predicate Closed(atRest: Rest, t: TermState, bytes: seq<byte>) {
    var grid := OpenGrid(t.store);
    grid.Some? ==> atRest(grid.value.input + Typed(bytes))
  }

  predicate ClosedResize(atRest: Rest, t: TermState, cols: nat, rows: nat) {
    var grid := OpenGrid(t.store);
    grid.Some? ==> atRest(grid.value.input + [Resized(cols, rows)])
  }

  lemma SeenGrows(global: seq<Tagged>, bytes: seq<byte>, mirrored: bool)
    ensures Seen(global + Tag(bytes, mirrored)) == Seen(global) + Typed(bytes)
  {
  }

  lemma StaysTogether(em: Emulator, atRest: Rest, x: seq<GridInput>, y: seq<GridInput>, z: seq<GridInput>)
    requires Together(em, atRest, x, y) && atRest(z) && !Alt(em, y) && !Alt(em, z)
    ensures Together(em, atRest, x, z)
  {
  }

  lemma DispatchMirrors(em: Emulator, atRest: Rest, t: TermState, bytes: seq<byte>)
    requires Lawful(em, atRest) && FlagsAgree(em, atRest, t) && Closed(atRest, t, bytes)
    ensures FlagsAgree(em, atRest, Dispatch(em, t, bytes))
  {
    hide Lawful, Together;
    var grid := OpenGrid(t.store);
    if |bytes| > 0 && grid.Some? {
      SeenGrows(t.global, bytes, true);
      hide Seen, Typed, Tag;
      LawfulAt(em, atRest, Typed(bytes), Seen(t.global), grid.value.input);
      if !Alt(em, grid.value.input) && !Alt(em, grid.value.input + Typed(bytes)) {
        StaysTogether(em, atRest, Seen(t.global), grid.value.input, grid.value.input + Typed(bytes));
      }
    }
  }

  lemma CaptureMirrors(em: Emulator, atRest: Rest, t: TermState, bytes: seq<byte>)
    requires FlagsAgree(em, atRest, t)
    ensures FlagsAgree(em, atRest, Capture(t, bytes))
  {
    hide Seen, Blocks.Captured, Blocks.Newlines;
  }

  /** An event leaves the open grid alone, takes it away, or attaches a fresh one. */
  lemma EventMirrors(em: Emulator, atRest: Rest, t: TermState, e: DcsEvent, now: nat)
    requires FlagsAgree(em, atRest, t)
    requires var done := ApplyEvent(em, t, e, now);
             OpenGrid(t.store).None? && OpenGrid(done.store).Some? ==> FlagsAgree(em, atRest, done)
    ensures FlagsAgree(em, atRest, ApplyEvent(em, t, e, now))
  {
    hide Seen, CurrentLine, Frozen, UsedRows, Blocks.SealedEnd;
  }

  lemma ResizeMirrors(em: Emulator, atRest: Rest, t: TermState, cols: nat, rows: nat)
    requires Lawful(em, atRest) && FlagsAgree(em, atRest, t) && ClosedResize(atRest, t, cols, rows)
    ensures FlagsAgree(em, atRest, TerminalModel.Resize(t, cols, rows))
  {
    var grid, more := OpenGrid(t.store), [Resized(cols, rows)];
    assert Seen(t.global + [Tagged(Resized(cols, rows), false)]) == Seen(t.global) + more;
    hide Lawful, Seen, Together;
    if grid.Some? { LawfulAt(em, atRest, more, Seen(t.global), grid.value.input); }
  }

  /** In this call no escape sequence straddles a dispatched slice, and the flags agree whenever a grid is attached. */
  ghost predicate Fair(em: Emulator, atRest: Rest, t: TermState, rest: seq<byte>, at: nat, ls: seq<Located>, now: nat)
    decreases |ls|
  {
    if |ls| == 0 then Closed(atRest, t, rest)
    else
      var end, content := ls[0].end, ContentEnd(ls[0]);
      (at <= end <= at + |rest| && content <= at + |rest|) ==>
        var sent := Dispatch(em, t, rest[..end - at]);
        var kept := if content > at then Capture(sent, rest[..content - at]) else sent;
        var done := ApplyEvent(em, kept, ls[0].event, now);
        && Closed(atRest, t, rest[..end - at])
        && (OpenGrid(kept.store).None? && OpenGrid(done.store).Some? ==> FlagsAgree(em, atRest, done))
        && Fair(em, atRest, done, rest[end - at..], end, ls[1..], now)
  }

  /** The flags agree after every slice and after every event of this call. */
  ghost predicate Mirrored(em: Emulator, atRest: Rest, t: TermState, rest: seq<byte>, at: nat, ls: seq<Located>,
                           now: nat)
    decreases |ls|
  {
    if |ls| == 0 then FlagsAgree(em, atRest, Dispatch(em, t, rest))
    else
      var end, content := ls[0].end, ContentEnd(ls[0]);
      (at <= end <= at + |rest| && content <= at + |rest|) ==>
        var sent := Dispatch(em, t, rest[..end - at]);
        var kept := if content > at then Capture(sent, rest[..content - at]) else sent;
        var done := ApplyEvent(em, kept, ls[0].event, now);
        FlagsAgree(em, atRest, sent) && FlagsAgree(em, atRest, done)
          && Mirrored(em, atRest, done, rest[end - at..], end, ls[1..], now)
  }

  lemma {:induction false} WalkMirrors(em: Emulator, atRest: Rest, t: TermState, rest: seq<byte>, at: nat,
                                       ls: seq<Located>, now: nat)
    requires Lawful(em, atRest) && FlagsAgree(em, atRest, t) && Fair(em, atRest, t, rest, at, ls, now)
    ensures Mirrored(em, atRest, t, rest, at, ls, now)
    ensures Walk(em, t, rest, at, ls, now).Fed? ==> FlagsAgree(em, atRest, Walk(em, t, rest, at, ls, now).state)
    decreases |ls|
  {
    hide FlagsAgree, Dispatch, Capture, ApplyEvent, Lawful, Closed, OpenGrid;
    if |ls| == 0 {
      DispatchMirrors(em, atRest, t, rest);
      CaptureMirrors(em, atRest, Dispatch(em, t, rest), rest);
    } else {
      var end, content, e := ls[0].end, ContentEnd(ls[0]), ls[0].event;
      if at <= end <= at + |rest| && content <= at + |rest| {
        var sent := Dispatch(em, t, rest[..end - at]);
        DispatchMirrors(em, atRest, t, rest[..end - at]);
        if content > at { CaptureMirrors(em, atRest, sent, rest[..content - at]); }
        var kept := if content > at then Capture(sent, rest[..content - at]) else sent;
        EventMirrors(em, atRest, kept, e, now);
        WalkMirrors(em, atRest, ApplyEvent(em, kept, e, now), rest[end - at..], end, ls[1..], now);
      }
    }
  }

  /** The state a call's loop starts from, and its located events. */
  function Sniffed(t: TermState, bytes: seq<byte>): TermState {
    var after := TrackAll(Tracker(t.core, None, t.frameStart), bytes, 0);
    t.(core := after.core, frameStart := after.frameStart, queue := t.queue + Events(t.core, bytes))
  }

  function Positions(t: TermState, bytes: seq<byte>): seq<Located> {
    Locate(Tracker(t.core, None, t.frameStart), bytes, 0)
  }

  ghost predicate FairRun(em: Emulator, atRest: Rest, t: TermState, calls: seq<Call>)
    decreases |calls|
  {
    |calls| == 0 ||
    (var call := calls[0];
     && (match call
         case Feed(bytes, now) => Fair(em, atRest, Sniffed(t, bytes), bytes, 0, Positions(t, bytes), now)
         case Resize(cols, rows) => ClosedResize(atRest, t, cols, rows)
         case Reset => true)
     && (Do(em, t, call).Fed? ==> FairRun(em, atRest, Do(em, t, call).state, calls[1..])))
  }

  ghost predicate MirroredRun(em: Emulator, atRest: Rest, t: TermState, calls: seq<Call>)
    decreases |calls|
  {
    FlagsAgree(em, atRest, t) &&
    (|calls| == 0 ||
     (var call := calls[0];
      && (call.Feed? ==> Mirrored(em, atRest, Sniffed(t, call.bytes), call.bytes, 0, Positions(t, call.bytes),
                                  call.now))
      && (Do(em, t, call).Fed? ==> MirroredRun(em, atRest, Do(em, t, call).state, calls[1..]))))
  }

  lemma SniffedIsUnseen(em: Emulator, atRest: Rest, t: TermState, bytes: seq<byte>, now: nat)
    ensures FlagsAgree(em, atRest, Sniffed(t, bytes)) == FlagsAgree(em, atRest, t)
    ensures TerminalModel.Feed(em, t, bytes, now) == Walk(em, Sniffed(t, bytes), bytes, 0, Positions(t, bytes), now)
  {
    hide Walk, Locate;
  }

  /** MIRRORING. Over every run of feeds, resizes and resets: if no escape sequence straddles a dispatched slice and the
    flags agree whenever a grid is attached, the global terminal and the open block's grid agree on the alternate
    screen after every slice and every event. */
  lemma {:induction false} AltScreenIsMirrored(em: Emulator, atRest: Rest, t: TermState, calls: seq<Call>)
    requires Lawful(em, atRest) && FlagsAgree(em, atRest, t) && FairRun(em, atRest, t, calls)
    ensures MirroredRun(em, atRest, t, calls)
    decreases |calls|
  {
    if |calls| > 0 {
      hide FlagsAgree, Fair, Mirrored, Lawful, ClosedResize, Walk, Sniffed, Positions, TerminalModel.Feed;
      var call := calls[0];
      match call {
        case Feed(bytes, now) =>
          SniffedIsUnseen(em, atRest, t, bytes, now);
          WalkMirrors(em, atRest, Sniffed(t, bytes), bytes, 0, Positions(t, bytes), now);
        case Resize(cols, rows) => ResizeMirrors(em, atRest, t, cols, rows);
        case Reset => ResetMirrors(em, atRest, t);
      }
      if Do(em, t, call).Fed? { AltScreenIsMirrored(em, atRest, Do(em, t, call).state, calls[1..]); }
    }
  }

  lemma ResetMirrors(em: Emulator, atRest: Rest, t: TermState)
    ensures FlagsAgree(em, atRest, ResetBlocks(t))
  {
  }

  // ---- the reported mode ----

  /** The alternate-screen bit reported to the host: the global terminal's, or that of the latest running block. */
  predicate AltMode(em: Emulator, t: TermState) {
    Alt(em, Seen(t.global)) ||
    (var i := LastRunning(t.store.blocks);
     i.Some? && t.store.blocks[i.value].grid.Some? && Alt(em, t.store.blocks[i.value].grid.value.input))
  }

  /** While the flags agree, the host is told what the screen it should draw says: the running block's grid if there is
    one, the global terminal otherwise. */
  lemma ModeTellsTheActiveScreen(em: Emulator, atRest: Rest, t: TermState)
    requires FlagsAgree(em, atRest, t) && Blocks.Inv(t.store)
    ensures AltMode(em, t) ==
            match OpenGrid(t.store) case Some(g) => Alt(em, g.input) case None => Alt(em, Seen(t.global))
  {
    LastRunningIsOpen(t.store);
  }
}
