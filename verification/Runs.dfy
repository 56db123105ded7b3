/** Whole runs of the terminal against the reference machine. */
module Runs {
  import opened Bytes
  import opened Wire
  import opened Sniffer
  import opened Grid
  import opened Routing
  import opened TerminalModel
  import opened Refinement
  import opened Capturing
  import Blocks

  datatype Call = Feed(bytes: seq<byte>, now: nat) | Resize(cols: nat, rows: nat) | Reset

  function Do(em: Emulator, t: TermState, call: Call): Outcome {
    match call
    case Feed(bytes, now) => TerminalModel.Feed(em, t, bytes, now)
    case Resize(cols, rows) => Fed(TerminalModel.Resize(t, cols, rows))
    case Reset => Fed(ResetBlocks(t))
  }

  function DoAll(em: Emulator, t: TermState, calls: seq<Call>): Outcome
    decreases |calls|
  {
    if |calls| == 0 then Fed(t)
    else
      match Do(em, t, calls[0])
      case Panicked => Panicked
      case Fed(next) => DoAll(em, next, calls[1..])
  }

  function ResizeEntry(e: Entry, cols: nat, rows: nat): Entry {
    if e.running && e.grid.Some? then
      e.(grid := Some(GridState(cols, rows, e.grid.value.input + [Resized(cols, rows)])))
    else e
  }

  function ResizeEntries(es: seq<Entry>, cols: nat, rows: nat): seq<Entry> {
    seq(|es|, i requires 0 <= i < |es| => ResizeEntry(es[i], cols, rows))
  }

  function ResizeLedger(l: Ledger, cols: nat, rows: nat): Ledger {
    l.(entries := ResizeEntries(l.entries, cols, rows), seen := l.seen + [Resized(cols, rows)],
       cols := cols, rows := rows)
  }

  function SpecDo(s: Spec, call: Call): Spec {
    match call
    case Feed(bytes, _) => SpecRun(s, bytes)
    case Resize(cols, rows) =>
      var f := Flush(s);
      f.(ledger := ResizeLedger(f.ledger, cols, rows))
    case Reset =>
      var f := Flush(s);
      f.(ledger := f.ledger.(entries := []))
  }

  function SpecDoAll(s: Spec, calls: seq<Call>): Spec
    decreases |calls|
  {
    if |calls| == 0 then s else SpecDoAll(SpecDo(s, calls[0]), calls[1..])
  }

  /** No call begins with the backslash of a terminator whose ESC ended the previous call. */
  predicate Unsplit(s: Spec, calls: seq<Call>)
    decreases |calls|
  {
    |calls| == 0 ||
    ((calls[0].Feed? && s.pending.Some? && |calls[0].bytes| > 0 ==> calls[0].bytes[0] != BACKSLASH)
     && Unsplit(SpecDo(s, calls[0]), calls[1..]))
  }

  /** Each event frame lies inside one call. */
  predicate Whole(s: Spec, calls: seq<Call>)
    decreases |calls|
  {
    |calls| == 0 ||
    ((calls[0].Feed? ==> FramesInside(s.clock, calls[0].bytes, 0)) && Whole(SpecDo(s, calls[0]), calls[1..]))
  }

  /** The terminal agrees with the reference once a pending event is settled. */
  ghost predicate Agrees(em: Emulator, t: TermState, s: Spec) {
    && t.core == s.clock.core && Aware(s.clock)
    && Same(em, t, Flush(s).ledger)
  }

  lemma InitiallyAgrees(em: Emulator, cols: nat, rows: nat)
    ensures Agrees(em, New(cols, rows), NewSpec(cols, rows)) && Kept(New(cols, rows), NewSpec(cols, rows).ledger)
  {
    var g: seq<Tagged> := [Tagged(Resized(cols, rows), false)];
    assert g[..0] == [];
    assert Outside(g) == [];
    assert Blocks.Inv(Blocks.EMPTY);
    assert Same(em, New(cols, rows), NewSpec(cols, rows).ledger);
  }

  predicate SameCore(a: TermState, b: TermState) {
    a.core == b.core && a.frameStart == b.frameStart
  }

  lemma StepsKeepCore(em: Emulator, t: TermState, bytes: seq<byte>, e: DcsEvent, now: nat)
    ensures SameCore(Dispatch(em, t, bytes), t) && SameCore(Capture(t, bytes), t)
            && SameCore(ApplyEvent(em, t, e, now), t)
  {
  }

  lemma {:induction false} WalkKeepsCore(em: Emulator, t: TermState, rest: seq<byte>, at: nat, ls: seq<Located>,
                                         now: nat)
    requires Walk(em, t, rest, at, ls, now).Fed?
    ensures SameCore(Walk(em, t, rest, at, ls, now).state, t)
    decreases |ls|
  {
    hide Dispatch, Capture, ApplyEvent;
    if |ls| == 0 {
      StepsKeepCore(em, t, rest, CommandFinished(0), now);
      StepsKeepCore(em, Dispatch(em, t, rest), rest, CommandFinished(0), now);
    } else {
      var end, content, e := ls[0].end, ContentEnd(ls[0]), ls[0].event;
      var sent := Dispatch(em, t, rest[..end - at]);
      var kept := if content > at then Capture(sent, rest[..content - at]) else sent;
      StepsKeepCore(em, t, rest[..end - at], e, now);
      if content > at { StepsKeepCore(em, sent, rest[..content - at], e, now); }
      StepsKeepCore(em, kept, [], e, now);
      WalkKeepsCore(em, ApplyEvent(em, kept, ls[0].event, now), rest[end - at..], end, ls[1..], now);
    }
  }

  lemma {:induction false} AwareRun(c: Clock, bs: seq<byte>)
    requires Aware(c)
    ensures Aware(TickAll(c, bs))
    decreases |bs|
  {
    if |bs| > 0 {
      AwareStep(c, bs[0]);
      hide Aware, Tick;
      AwareRun(Tick(c, bs[0]), bs[1..]);
    }
  }

  lemma AwareStep(c: Clock, b: byte)
    requires Aware(c)
    ensures Aware(Tick(c, b))
  {
  }

  lemma OtherFields(em: Emulator, t: TermState, u: TermState, l: Ledger)
    requires Same(em, t, l) && u.store == t.store && u.global == t.global && u.cols == t.cols && u.rows == t.rows
    ensures Same(em, u, l) && (Kept(t, l) ==> Kept(u, l))
  {
  }

  /** ROUTING, one call. */
  lemma FeedRefines(em: Emulator, t: TermState, s: Spec, bytes: seq<byte>, now: nat)
    requires Agrees(em, t, s)
    requires s.pending.Some? && |bytes| > 0 ==> bytes[0] != BACKSLASH
    requires TerminalModel.Feed(em, t, bytes, now).Fed?
    ensures Agrees(em, TerminalModel.Feed(em, t, bytes, now).state, SpecRun(s, bytes))
  {
    hide Same, Walk, Locate, SpecRun, TickAll, TrackAll, Effect;
    var t1 := FeedIs(em, t, bytes, now);
    var k := Tracker(t.core, None, t.frameStart);
    OtherFields(em, t, t1, Flush(s).ledger);
    WalkRefines(em, t1, Flush(s), k, bytes, 0, now);
    WalkKeepsCore(em, t1, bytes, 0, Locate(k, bytes, 0), now);
    PendingSettles(s, bytes);
    SpecRunsCore(s, bytes);
    SpecRunsClock(s, bytes);
    AwareRun(s.clock, bytes);
  }

  /** CAPTURE, one call. */
  lemma FeedKeeps(em: Emulator, t: TermState, s: Spec, bytes: seq<byte>, now: nat)
    requires Agrees(em, t, s) && Kept(t, Flush(s).ledger)
    requires s.pending.Some? && |bytes| > 0 ==> bytes[0] != BACKSLASH
    requires FramesInside(s.clock, bytes, 0)
    requires TerminalModel.Feed(em, t, bytes, now).Fed?
    ensures Kept(TerminalModel.Feed(em, t, bytes, now).state, Flush(SpecRun(s, bytes)).ledger)
  {
    var k := Tracker(t.core, None, t.frameStart);
    assert Linked(k, s.clock, 0);
    hide Same, Walk, Locate, SpecRun, TickAll, TrackAll, Effect, FramesInside, Linked, Kept;
    var t1 := FeedIs(em, t, bytes, now);
    OtherFields(em, t, t1, Flush(s).ledger);
    WalkKeeps(em, t1, Flush(s), k, bytes, 0, now);
    PendingSettles(s, bytes);
  }

  lemma ResizedEntries(es: seq<Entry>, cols: nat, rows: nat)
    ensures var fs := ResizeEntries(es, cols, rows);
            && |fs| == |es|
            && forall i :: 0 <= i < |es| ==>
                 && fs[i] == ResizeEntry(es[i], cols, rows) && fs[i].startMark == es[i].startMark
                 && fs[i].running == es[i].running && fs[i].output == es[i].output
                 && (!es[i].running ==> fs[i] == es[i])
  {
  }

  lemma ResizedBlock(em: Emulator, b: Blocks.Block<GridState>, e: Entry, cols: nat, rows: nat)
    requires SameBlock(em, b, e)
    ensures SameBlock(em, Blocks.ResizeBlock(b, cols, rows), ResizeEntry(e, cols, rows))
  {
    hide Frozen;
  }

  lemma ResizeSeen(global: seq<Tagged>, cols: nat, rows: nat)
    ensures var tag := Tagged(Resized(cols, rows), false);
            && Outside(global + [tag]) == Outside(global)
            && Unmirrored(global + [tag]) == Unmirrored(global) + [Resized(cols, rows)]
            && (NoneMirrored(global + [tag]) ==> NoneMirrored(global))
  {
    var tag := Tagged(Resized(cols, rows), false);
    assert (global + [tag])[..|global|] == global;
    assert forall i :: 0 <= i < |global| ==> (global + [tag])[i] == global[i];
    assert Outside(global) + [] == Outside(global);
  }

  lemma ResizeStores(em: Emulator, t: TermState, l: Ledger, cols: nat, rows: nat)
    requires SameStore(em, t, l)
    ensures SameStore(em, TerminalModel.Resize(t, cols, rows), ResizeLedger(l, cols, rows))
  {
    Blocks.DoKeepsInv(em, t.store, Blocks.Resize(cols, rows));
    ResizeSeen(t.global, cols, rows);
    ResizedEntries(l.entries, cols, rows);
    hide Blocks.Inv, Outside, ResizeEntries, SameBlock, ResizeEntry, Blocks.ResizeBlock;
    forall i | 0 <= i < |l.entries|
      ensures SameBlock(em, Blocks.ResizeBlock(t.store.blocks[i], cols, rows), ResizeEntry(l.entries[i], cols, rows))
    {
      ResizedBlock(em, t.store.blocks[i], l.entries[i], cols, rows);
    }
  }

  lemma ResizeSees(em: Emulator, t: TermState, l: Ledger, cols: nat, rows: nat)
    requires Same(em, t, l)
    ensures SameOutside(em, TerminalModel.Resize(t, cols, rows), ResizeLedger(l, cols, rows))
  {
    ResizeSeen(t.global, cols, rows);
    ResizedEntries(l.entries, cols, rows);
    hide SameStore, Outside, Unmirrored, NoneMirrored, ResizeEntries, SameLines;
    var u := TerminalModel.Resize(t, cols, rows);
    if NoneMirrored(u.global) {
      SameIs(em, t, l);
      LinesStay(em, t.store.blocks, u.store.blocks, l.entries, ResizeEntries(l.entries, cols, rows));
    }
  }

  lemma ResizeKept(t: TermState, l: Ledger, cols: nat, rows: nat)
    requires Kept(t, l)
    ensures Kept(TerminalModel.Resize(t, cols, rows), ResizeLedger(l, cols, rows))
  {
    ResizedEntries(l.entries, cols, rows);
    hide Blocks.CapturedFrom, ResizeEntries;
  }

  lemma ResizeRefines(em: Emulator, t: TermState, l: Ledger, cols: nat, rows: nat)
    requires Same(em, t, l)
    ensures var r := ResizeLedger(l, cols, rows);
            && Same(em, TerminalModel.Resize(t, cols, rows), r)
            && (Kept(t, l) ==> Kept(TerminalModel.Resize(t, cols, rows), r))
  {
    ResizeStores(em, t, l, cols, rows);
    ResizeSees(em, t, l, cols, rows);
    if Kept(t, l) { ResizeKept(t, l, cols, rows); }
    hide SameStore, SameOutside, Kept, TerminalModel.Resize, ResizeLedger;
  }

  lemma ResetRefines(em: Emulator, t: TermState, l: Ledger)
    requires Same(em, t, l)
    ensures Same(em, ResetBlocks(t), l.(entries := [])) && Kept(ResetBlocks(t), l.(entries := []))
  {
  }

  /** ROUTING REFINES THE REFERENCE. For every run of feeds, resizes and resets, however the stream is cut, as long as
    no cut separates the two bytes of a 7-bit terminator and no feed stops: each block's grid has received exactly
    the bytes the reference gives it, sealed blocks show exactly that, and the bytes of no block reached the global
    terminal once each and in order. */
  lemma {:induction false} RunsRefine(em: Emulator, t: TermState, s: Spec, calls: seq<Call>)
    requires Agrees(em, t, s) && Unsplit(s, calls) && DoAll(em, t, calls).Fed?
    ensures Agrees(em, DoAll(em, t, calls).state, SpecDoAll(s, calls))
    decreases |calls|
  {
    if |calls| > 0 {
      hide Same, SpecRun, TerminalModel.Feed, Effect;
      var call := calls[0];
      match call {
        case Feed(bytes, now) => FeedRefines(em, t, s, bytes, now);
        case Resize(cols, rows) => ResizeRefines(em, t, Flush(s).ledger, cols, rows);
        case Reset => ResetRefines(em, t, Flush(s).ledger);
      }
      RunsRefine(em, Do(em, t, call).state, SpecDo(s, call), calls[1..]);
    }
  }

  /** CAPTURED OUTPUT IS EXACT. If moreover each event frame lies inside one call, every block's stored output is its
    input without event frames, cut right after the 5000th newline. */
  lemma {:induction false} RunsKeep(em: Emulator, t: TermState, s: Spec, calls: seq<Call>)
    requires Agrees(em, t, s) && Kept(t, Flush(s).ledger)
    requires Unsplit(s, calls) && Whole(s, calls) && DoAll(em, t, calls).Fed?
    ensures Kept(DoAll(em, t, calls).state, Flush(SpecDoAll(s, calls)).ledger)
    decreases |calls|
  {
    if |calls| > 0 {
      hide Same, Kept, SpecRun, TerminalModel.Feed, Effect, FramesInside;
      var call := calls[0];
      match call {
        case Feed(bytes, now) =>
          FeedRefines(em, t, s, bytes, now);
          FeedKeeps(em, t, s, bytes, now);
        case Resize(cols, rows) => ResizeRefines(em, t, Flush(s).ledger, cols, rows);
        case Reset => ResetRefines(em, t, Flush(s).ledger);
      }
      RunsKeep(em, Do(em, t, call).state, SpecDo(s, call), calls[1..]);
    }
  }

  /** The reference when every call settles a pending event first. */
  function SpecByCalls(s: Spec, calls: seq<Call>): Spec
    decreases |calls|
  {
    if |calls| == 0 then s else SpecByCalls(SpecDo(Flush(s), calls[0]), calls[1..])
  }

  lemma FlushedAgrees(em: Emulator, t: TermState, s: Spec)
    requires Agrees(em, t, s)
    ensures Agrees(em, t, Flush(s)) && Flush(Flush(s)) == Flush(s)
  {
    hide Same, Effect;
  }

  /** With no condition on the cuts at all, the terminal refines the reference that settles between calls. */
  lemma {:induction false} RunsRefineByCalls(em: Emulator, t: TermState, s: Spec, calls: seq<Call>)
    requires Agrees(em, t, s) && DoAll(em, t, calls).Fed?
    ensures Agrees(em, DoAll(em, t, calls).state, SpecByCalls(s, calls))
    decreases |calls|
  {
    if |calls| > 0 {
      FlushedAgrees(em, t, s);
      hide Same, SpecRun, TerminalModel.Feed, Effect;
      var call, f := calls[0], Flush(s);
      match call {
        case Feed(bytes, now) => FeedRefines(em, t, f, bytes, now);
        case Resize(cols, rows) => ResizeRefines(em, t, f.ledger, cols, rows);
        case Reset => ResetRefines(em, t, f.ledger);
      }
      RunsRefineByCalls(em, Do(em, t, call).state, SpecDo(f, call), calls[1..]);
    }
  }

  // ---- cutting one stream ----

  function Feeds(chunks: seq<seq<byte>>, nows: seq<nat>): seq<Call>
    requires |chunks| == |nows|
  {
    seq(|chunks|, i requires 0 <= i < |chunks| => Feed(chunks[i], nows[i]))
  }

  lemma {:induction false} FeedsAreOneStream(s: Spec, chunks: seq<seq<byte>>, nows: seq<nat>)
    requires |chunks| == |nows|
    ensures SpecDoAll(s, Feeds(chunks, nows)) == SpecRun(s, Flatten(chunks))
    decreases |chunks|
  {
    if |chunks| > 0 {
      hide SpecRun;
      var calls := Feeds(chunks, nows);
      assert calls[0] == Feed(chunks[0], nows[0]) && calls[1..] == Feeds(chunks[1..], nows[1..]);
      SpecRunConcatenates(s, chunks[0], Flatten(chunks[1..]));
      FeedsAreOneStream(SpecRun(s, chunks[0]), chunks[1..], nows[1..]);
    } else {
      assert Feeds(chunks, nows) == [];
    }
  }

  /** Two blocks a host cannot tell apart, apart from their lines, their duration and their stored output. */
  ghost predicate SamePicture(a: Blocks.Block<GridState>, b: Blocks.Block<GridState>) {
    && a.id == b.id && a.command == b.command && a.isRunning == b.isRunning && a.exitCode == b.exitCode
    && a.workingDirectory == b.workingDirectory && a.gitBranch == b.gitBranch
    && a.grid == b.grid && a.frozen == b.frozen
  }

  /** What two terminals that agree with one ledger share. */
  lemma Alikeness(em: Emulator, a: TermState, b: TermState, l: Ledger)
    requires Same(em, a, l) && Same(em, b, l)
    ensures |a.store.blocks| == |b.store.blocks|
    ensures forall i :: 0 <= i < |a.store.blocks| ==> SamePicture(a.store.blocks[i], b.store.blocks[i])
    ensures Outside(a.global) == Outside(b.global) && Unmirrored(a.global) == Unmirrored(b.global)
    ensures NoneMirrored(a.global) && NoneMirrored(b.global) ==>
              && Seen(a.global) == Seen(b.global)
              && forall i :: 0 <= i < |a.store.blocks| ==>
                   a.store.blocks[i].startLine == b.store.blocks[i].startLine
                   && a.store.blocks[i].endLine == b.store.blocks[i].endLine
    ensures Kept(a, l) && Kept(b, l) ==>
              forall i :: 0 <= i < |a.store.blocks| ==> a.store.blocks[i].output == b.store.blocks[i].output
  {
    forall i | 0 <= i < |l.entries| ensures SamePicture(a.store.blocks[i], b.store.blocks[i]) {
      assert SameBlock(em, a.store.blocks[i], l.entries[i]) && SameBlock(em, b.store.blocks[i], l.entries[i]);
    }
    hide Outside, Unmirrored, LineAt, EndAtMark, Frozen, Blocks.CutAfter, Blocks.Newlines;
    if NoneMirrored(a.global) && NoneMirrored(b.global) {
      AllSeen(a.global);
      AllSeen(b.global);
      forall i | 0 <= i < |l.entries|
        ensures a.store.blocks[i].startLine == b.store.blocks[i].startLine
        ensures a.store.blocks[i].endLine == b.store.blocks[i].endLine
      {
        var e := l.entries[i];
        assert SameLine(em, a.store.blocks[i], e) && SameLine(em, b.store.blocks[i], e);
        assert SameBlock(em, a.store.blocks[i], e) && SameBlock(em, b.store.blocks[i], e);
        assert Blocks.BlockOk(a.store.blocks[i], a.store.openIndex == Some(i));
        assert Blocks.BlockOk(b.store.blocks[i], b.store.openIndex == Some(i));
      }
    }
    if Kept(a, l) && Kept(b, l) {
      assert forall i :: 0 <= i < |l.entries| ==> Outputs(l)[i] == l.entries[i].output;
    }
  }

  /** CUTS DO NOT MATTER. Two cuttings of one stream, neither of which splits a 7-bit terminator, leave the same
    blocks, grids and frozen pictures, and the same input of the global terminal that is no block's. If neither
    cutting ever dispatched a slice to an open grid that was on the alternate screen before or after it, the whole
    input of the global terminal and the blocks' first and last lines are the same, too; if event frames lie inside
    calls, so are the stored outputs. */
  lemma CutsDoNotMatter(em: Emulator, cols: nat, rows: nat,
                        a: seq<seq<byte>>, aNows: seq<nat>, b: seq<seq<byte>>, bNows: seq<nat>)
    requires |a| == |aNows| && |b| == |bNows| && Flatten(a) == Flatten(b)
    requires Unsplit(NewSpec(cols, rows), Feeds(a, aNows)) && Unsplit(NewSpec(cols, rows), Feeds(b, bNows))
    requires DoAll(em, New(cols, rows), Feeds(a, aNows)).Fed? && DoAll(em, New(cols, rows), Feeds(b, bNows)).Fed?
    ensures var x := DoAll(em, New(cols, rows), Feeds(a, aNows)).state;
            var y := DoAll(em, New(cols, rows), Feeds(b, bNows)).state;
            && |x.store.blocks| == |y.store.blocks|
            && (forall i :: 0 <= i < |x.store.blocks| ==> SamePicture(x.store.blocks[i], y.store.blocks[i]))
            && Outside(x.global) == Outside(y.global) && Unmirrored(x.global) == Unmirrored(y.global)
            && (NoneMirrored(x.global) && NoneMirrored(y.global) ==>
                 && Seen(x.global) == Seen(y.global)
                 && forall i :: 0 <= i < |x.store.blocks| ==>
                      x.store.blocks[i].startLine == y.store.blocks[i].startLine
                      && x.store.blocks[i].endLine == y.store.blocks[i].endLine)
            && (Whole(NewSpec(cols, rows), Feeds(a, aNows)) && Whole(NewSpec(cols, rows), Feeds(b, bNows)) ==>
                 forall i :: 0 <= i < |x.store.blocks| ==> x.store.blocks[i].output == y.store.blocks[i].output)
  {
    hide *;
    var s := NewSpec(cols, rows);
    InitiallyAgrees(em, cols, rows);
    NewIsSettled(cols, rows);
    FeedsAreOneStream(s, a, aNows);
    FeedsAreOneStream(s, b, bNows);
    RunsRefine(em, New(cols, rows), s, Feeds(a, aNows));
    RunsRefine(em, New(cols, rows), s, Feeds(b, bNows));
    if Whole(s, Feeds(a, aNows)) && Whole(s, Feeds(b, bNows)) {
      RunsKeep(em, New(cols, rows), s, Feeds(a, aNows));
      RunsKeep(em, New(cols, rows), s, Feeds(b, bNows));
    }
    var l := Flush(SpecRun(s, Flatten(a))).ledger;
    AgreesIs(em, DoAll(em, New(cols, rows), Feeds(a, aNows)).state, SpecRun(s, Flatten(a)));
    AgreesIs(em, DoAll(em, New(cols, rows), Feeds(b, bNows)).state, SpecRun(s, Flatten(b)));
    Alikeness(em, DoAll(em, New(cols, rows), Feeds(a, aNows)).state, DoAll(em, New(cols, rows), Feeds(b, bNows)).state,
              l);
  }

  lemma NewIsSettled(cols: nat, rows: nat)
    ensures Flush(NewSpec(cols, rows)) == NewSpec(cols, rows) && NewSpec(cols, rows).pending.None?
  {
  }

  lemma AgreesIs(em: Emulator, t: TermState, s: Spec)
    requires Agrees(em, t, s)
    ensures Same(em, t, Flush(s).ledger)
  {
    hide Same;
  }

  /** A mark of mirroring is left exactly by a slice that finds the open grid on the alternate screen before or after.
    */
  lemma DispatchMarksExactlyWhen(em: Emulator, t: TermState, bytes: seq<byte>)
    requires |bytes| > 0
    ensures NoneMirrored(Dispatch(em, t, bytes).global) <==>
            && NoneMirrored(t.global)
            && match OpenGrid(t.store)
               case None => true
               case Some(g) => !em(g.input).alt && !em(g.input + Typed(bytes)).alt
  {
    DispatchIs(em, t, bytes);
    TagMarks(t.global, bytes, true);
    TagMarks(t.global, bytes, false);
    hide Dispatch, NoneMirrored, Tag, OpenGrid, Typed, Blocks.FeedOpen;
  }

  lemma TagMarks(global: seq<Tagged>, bytes: seq<byte>, mirrored: bool)
    requires |bytes| > 0
    ensures NoneMirrored(global + Tag(bytes, mirrored)) <==> NoneMirrored(global) && !mirrored
  {
    var tag := Tag(bytes, mirrored);
    UnmirroredConcatenates(global, tag);
    hide Unmirrored;
    assert tag[0].mirrored == mirrored && (global + tag)[|global|] == tag[0];
    assert forall i :: 0 <= i < |global + tag| ==>
      (global + tag)[i] == if i < |global| then global[i] else tag[i - |global|];
  }
}
