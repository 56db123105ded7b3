/** What a shell session leaves behind: blocks, captured output and the bytes of no block, read off its pieces. */
module Session {
  import opened Bytes
  import opened Vte
  import opened Wire
  import opened Sniffer
  import opened Grid
  import opened Stream
  import opened Routing
  import opened TerminalModel
  import opened Refinement
  import opened Capturing
  import opened Runs
  import Blocks
  import WirePrinter

  // ---- frames begun in a call are inside it ----

  /** The frame or header in progress began at or after offset 0 of this call. */
  predicate Begun(c: Clock, at: nat) {
    && Aware(c)
    && (c.core.isOurs ==> c.frameLength <= at)
    && (c.core.parser.state in [Escape, DcsEntry, DcsParam, DcsIntermediate] ==> c.sinceEsc <= at)
  }

  lemma BegunStep(c: Clock, b: byte, at: nat)
    requires Begun(c, at)
    ensures Begun(Tick(c, b), at + 1)
  {
    hide ParseBody;
  }

  lemma {:induction false} BegunFramesAreInside(c: Clock, rest: seq<byte>, at: nat)
    requires Begun(c, at)
    ensures FramesInside(c, rest, at)
    decreases |rest|
  {
    if |rest| > 0 {
      BegunStep(c, rest[0], at);
      assert Emit(c.core, rest[0]).Some? ==> c.frameLength <= at;
      hide Begun, Tick, Emit;
      BegunFramesAreInside(Tick(c, rest[0]), rest[1..], at + 1);
    }
  }

  /** A pending event means the input ended in ESC. */
  lemma {:induction false} PendingEndsInEsc(s: Spec, bs: seq<byte>)
    requires |bs| > 0 && SpecRun(s, bs).pending.Some?
    ensures bs[|bs| - 1] == ESC
    decreases |bs|
  {
    hide Effect, Deliver, Emit, Tick;
    if |bs| == 1 {
      assert bs[1..] == [];
      assert SpecRun(s, bs) == SpecStep(s, bs[0]);
    } else {
      PendingEndsInEsc(SpecStep(s, bs[0]), bs[1..]);
    }
  }

  // ---- the session as pieces ----

  /** The effect of one piece: its bytes are delivered, then its event, if it has one, happens. */
  function PlayPiece(l: Ledger, p: Piece): Ledger {
    var delivered := Deliver(l, Render(p));
    match Says(p)
    case None => delivered
    case Some(e) => Effect(delivered, e, |Render(p)|)
  }

  function Play(l: Ledger, ps: seq<Piece>): Ledger
    decreases |ps|
  {
    if |ps| == 0 then l else Play(PlayPiece(l, ps[0]), ps[1..])
  }

  /** Between pieces. */
  predicate Settled(s: Spec) {
    s.pending.None? && Aware(s.clock) && Idle(s.clock.core)
  }

  lemma SettledIs(s: Spec)
    requires Settled(s)
    ensures var k := Tracker(s.clock.core, None, None);
            s.pending.None? && Idle(k.core) && Sane(k.core) && Linked(k, s.clock, 0) && Begun(s.clock, 0)
  {
  }

  lemma PieceSettles(s: Spec, p: Piece)
    requires Settled(s) && Good(p)
    ensures Settled(SpecRun(s, Render(p)))
  {
    var bs := Render(p);
    RenderEndsClean(p);
    if SpecRun(s, bs).pending.Some? && |bs| > 0 { PendingEndsInEsc(s, bs); }
    PieceIsLocated(Tracker(s.clock.core, None, None), p, 0);
    hide Render, Good, Idle, Aware, Locate, TrackAll, Effect, Deliver, TickAll, Run;
    TrackingRuns(Tracker(s.clock.core, None, None), bs, 0);
    AwareRun(s.clock, bs);
    SpecRunsClock(s, bs);
    SpecRunsCore(s, bs);
  }

  lemma SomeEvent(k: Tracker, bs: seq<byte>)
    requires Sane(k.core) && k.lastEsc.None? && Locate(k, bs, 0) != []
    ensures FirstEvent(k.core, bs) < |bs|
  {
    hide *;
    if FirstEvent(k.core, bs) >= |bs| { NoEvent(k, bs, 0); }
  }

  lemma CutLinked(k: Tracker, s: Spec, bs: seq<byte>) returns (c: Cut)
    requires s.pending.None? && Sane(k.core) && k.lastEsc.None? && FirstEvent(k.core, bs) < |bs|
    requires Linked(k, s.clock, 0) && FramesInside(s.clock, bs, 0)
    ensures 0 < c.end <= |bs| && c.located.end == c.end && c.located.start == Some(c.end - c.length)
    ensures Locate(k, bs, 0) == [c.located] + Locate(c.next, bs[c.end..], c.end)
    ensures c.after.ledger == Effect(Deliver(s.ledger, bs[..c.end]), c.located.event, c.length)
    ensures c.after == Flush(SpecRun(s, bs[..c.end]))
  {
    hide *;
    LinkedIsSane(k, s.clock, 0);
    c := CutEvent(k, s, bs, 0);
    CutStart(k, s, bs, 0, c);
  }

  /** The first event of a call that begins between pieces is cut off at its own frame. */
  lemma CutFirst(k: Tracker, s: Spec, bs: seq<byte>) returns (c: Cut)
    requires Settled(s) && k == Tracker(s.clock.core, None, None) && Locate(k, bs, 0) != []
    ensures c.located == Locate(k, bs, 0)[0] && c.located.start == Some(c.end - c.length)
    ensures c.located.end == c.end <= |bs|
    ensures c.after == Flush(SpecRun(s, bs[..c.end]))
    ensures c.after.ledger == Effect(Deliver(s.ledger, bs[..c.end]), c.located.event, c.length)
  {
    hide *;
    SettledIs(s);
    SomeEvent(k, bs);
    BegunFramesAreInside(s.clock, bs, 0);
    c := CutLinked(k, s, bs);
  }

  lemma EventIsPlayed(s: Spec, bs: seq<byte>, e: DcsEvent)
    requires Settled(s) && SpecRun(s, bs).pending.None?
    requires Locate(Tracker(s.clock.core, None, None), bs, 0) == [Located(Some(0), |bs|, e)]
    ensures SpecRun(s, bs).ledger == Effect(Deliver(s.ledger, bs), e, |bs|)
  {
    hide *;
    FlushSettles(SpecRun(s, bs));
    var c := CutFirst(Tracker(s.clock.core, None, None), s, bs);
    assert bs[..c.end] == bs;
  }

  lemma PieceIsPlayed(s: Spec, p: Piece)
    requires Settled(s) && Good(p)
    ensures Settled(SpecRun(s, Render(p))) && SpecRun(s, Render(p)).ledger == PlayPiece(s.ledger, p)
  {
    hide *;
    var k, bs := Tracker(s.clock.core, None, None), Render(p);
    SettledIs(s);
    PieceSettles(s, p);
    SettledIs(SpecRun(s, bs));
    PlayIs(s.ledger, p);
    PieceIsLocated(k, p, 0);
    if Says(p).None? {
      NothingLocated(k, bs);
      QuietRun(s, bs);
    } else {
      EventIsPlayed(s, bs, Says(p).value);
    }
  }

  lemma NothingLocated(k: Tracker, bs: seq<byte>)
    requires Locate(k, bs, 0) == []
    ensures Events(k.core, bs) == []
  {
    LocatedEventsAreTheEvents(k, bs, 0);
  }

  lemma PlayIs(l: Ledger, p: Piece)
    ensures PlayPiece(l, p) ==
            match Says(p)
            case None => Deliver(l, Render(p))
            case Some(e) => Effect(Deliver(l, Render(p)), e, |Render(p)|)
  {
  }

  lemma RunNothing(s: Spec)
    ensures SpecRun(s, []) == s
  {
  }

  /** The bytewise machine plays the pieces. */
  lemma {:induction false} StreamIsPlayed(s: Spec, ps: seq<Piece>)
    requires Settled(s) && AllGood(ps)
    ensures Settled(SpecRun(s, RenderAll(ps))) && SpecRun(s, RenderAll(ps)).ledger == Play(s.ledger, ps)
    decreases |ps|
  {
    hide Render, Good, Settled, SpecRun, PlayPiece;
    if |ps| == 0 {
      RunNothing(s);
    } else {
      PieceIsPlayed(s, ps[0]);
      SpecRunConcatenates(s, Render(ps[0]), RenderAll(ps[1..]));
      StreamIsPlayed(SpecRun(s, Render(ps[0])), ps[1..]);
    }
  }

  // ---- reading the blocks off the pieces ----

  lemma {:induction false} PlayConcatenates(l: Ledger, a: seq<Piece>, b: seq<Piece>)
    ensures Play(l, a + b) == Play(Play(l, a), b)
    decreases |a|
  {
    hide PlayPiece;
    if |a| == 0 {
      assert a + b == b;
    } else {
      assert (a + b)[1..] == a[1..] + b;
      PlayConcatenates(PlayPiece(l, a[0]), a[1..], b);
    }
  }

  /** Is a block's grid attached after this piece? */
  function RoutedAfter(routed: bool, p: Piece): bool {
    match Says(p)
    case None => routed
    case Some(e) => e.Preexec?
  }

  /** Everything except the spans that begin behind a Preexec frame and end with the next other event frame. */
  function OutsideBytes(ps: seq<Piece>, routed: bool): seq<byte>
    decreases |ps|
  {
    if |ps| == 0 then []
    else (if routed then [] else Render(ps[0])) + OutsideBytes(ps[1..], RoutedAfter(routed, ps[0]))
  }

  lemma PieceOutside(l: Ledger, p: Piece)
    ensures HasGrid(PlayPiece(l, p)) == RoutedAfter(HasGrid(l), p)
    ensures PlayPiece(l, p).outside == l.outside + if HasGrid(l) then [] else Render(p)
  {
    hide Says, Render;
  }

  /** The bytes of no block are those outside the spans, once each and in order. */
  lemma {:induction false} OutsideIsOutsideTheSpans(l: Ledger, ps: seq<Piece>)
    ensures Play(l, ps).outside == l.outside + OutsideBytes(ps, HasGrid(l))
    decreases |ps|
  {
    hide PlayPiece, HasGrid, RoutedAfter, Render;
    if |ps| > 0 {
      PieceOutside(l, ps[0]);
      OutsideIsOutsideTheSpans(PlayPiece(l, ps[0]), ps[1..]);
      Associate(l.outside, if HasGrid(l) then [] else Render(ps[0]),
                OutsideBytes(ps[1..], RoutedAfter(HasGrid(l), ps[0])));
    }
  }

  lemma OutsideFromNew(l: Ledger, ps: seq<Piece>)
    requires !HasGrid(l) && l.outside == []
    ensures Play(l, ps).outside == OutsideBytes(ps, false)
  {
    hide *;
    OutsideIsOutsideTheSpans(l, ps);
    assert [] + OutsideBytes(ps, false) == OutsideBytes(ps, false);
  }

  /** Output is what is not an event frame. */
  function OutputBytes(ps: seq<Piece>): seq<byte> {
    if |ps| == 0 then [] else (if Says(ps[0]).Some? then [] else Render(ps[0])) + OutputBytes(ps[1..])
  }

  /** Nothing in `ps` seals a block. */
  predicate SealFree(ps: seq<Piece>) {
    |ps| == 0 || ((Says(ps[0]).Some? ==> Says(ps[0]).value.Preexec?) && SealFree(ps[1..]))
  }

  function LastEntry(l: Ledger): Entry
    requires |l.entries| > 0
  {
    l.entries[|l.entries| - 1]
  }

  function CommandAfter(command: seq<byte>, p: Piece): seq<byte> {
    if Says(p).Some? && Says(p).value.Preexec? then Says(p).value.command else command
  }

  /** A Preexec inside a span renames the running block and keeps its grid. */
  function LastCommand(command: seq<byte>, ps: seq<Piece>): seq<byte>
    decreases |ps|
  {
    if |ps| == 0 then command else LastCommand(CommandAfter(command, ps[0]), ps[1..])
  }

  /** What one more piece adds to the running block. */
  lemma PieceInside(l: Ledger, p: Piece)
    requires HasGrid(l) && (Says(p).Some? ==> Says(p).value.Preexec?)
    ensures var r := PlayPiece(l, p);
            && HasGrid(r) && |r.entries| == |l.entries|
            && LastEntry(r).grid ==
               Some(LastEntry(l).grid.value.(input := LastEntry(l).grid.value.input + Typed(Render(p))))
            && LastEntry(r).output == LastEntry(l).output + (if Says(p).Some? then [] else Render(p))
            && LastEntry(r).command == CommandAfter(LastEntry(l).command, p)
  {
    hide Says, Render, Typed;
    var e := LastEntry(l);
    assert (e.output + Render(p))[..|e.output|] == e.output;
  }

  lemma {:induction false} SpanFills(l: Ledger, body: seq<Piece>)
    requires HasGrid(l) && SealFree(body)
    ensures var r := Play(l, body);
            && HasGrid(r) && |r.entries| == |l.entries|
            && LastEntry(r).grid ==
               Some(LastEntry(l).grid.value.(input := LastEntry(l).grid.value.input + Typed(RenderAll(body))))
            && LastEntry(r).output == LastEntry(l).output + OutputBytes(body)
            && LastEntry(r).command == LastCommand(LastEntry(l).command, body)
    decreases |body|
  {
    var e := LastEntry(l);
    hide PlayPiece, Says, Render, Typed;
    if |body| == 0 {
      TypedConcatenates([], []);
      assert e.grid.value.input + Typed([]) == e.grid.value.input && e.output + [] == e.output;
    } else {
      PieceInside(l, body[0]);
      SpanFills(PlayPiece(l, body[0]), body[1..]);
      TypedConcatenates(Render(body[0]), RenderAll(body[1..]));
      Associate(e.grid.value.input, Typed(Render(body[0])), Typed(RenderAll(body[1..])));
      Associate(e.output, if Says(body[0]).Some? then [] else Render(body[0]), OutputBytes(body[1..]));
    }
  }

  lemma TypedConcatenates(a: seq<byte>, b: seq<byte>)
    ensures Typed(a + b) == Typed(a) + Typed(b) && Typed([]) == []
  {
  }

  /** A block without a grid has no output. */
  predicate Blank(l: Ledger) {
    forall i :: 0 <= i < |l.entries| && l.entries[i].grid.None? ==> l.entries[i].output == []
  }

  lemma PieceKeepsSealed(l: Ledger, p: Piece, i: nat)
    requires i < |l.entries| && !l.entries[i].running
    ensures i < |PlayPiece(l, p).entries| && PlayPiece(l, p).entries[i] == l.entries[i]
  {
    hide Says, Render;
  }

  lemma {:induction false} SealedEntriesStay(l: Ledger, ps: seq<Piece>, i: nat)
    requires i < |l.entries| && !l.entries[i].running
    ensures i < |Play(l, ps).entries| && Play(l, ps).entries[i] == l.entries[i]
    decreases |ps|
  {
    if |ps| > 0 {
      PieceKeepsSealed(l, ps[0], i);
      hide PlayPiece;
      SealedEntriesStay(PlayPiece(l, ps[0]), ps[1..], i);
    }
  }

  lemma PieceKeepsBlank(l: Ledger, p: Piece)
    requires Blank(l)
    ensures Blank(PlayPiece(l, p)) && PlayPiece(l, p).cols == l.cols && PlayPiece(l, p).rows == l.rows
  {
    hide Says, Render, Typed;
  }

  lemma {:induction false} PlayKeepsBlank(l: Ledger, ps: seq<Piece>)
    requires Blank(l)
    ensures Blank(Play(l, ps)) && Play(l, ps).cols == l.cols && Play(l, ps).rows == l.rows
    decreases |ps|
  {
    if |ps| > 0 {
      PieceKeepsBlank(l, ps[0]);
      hide PlayPiece, Blank;
      PlayKeepsBlank(PlayPiece(l, ps[0]), ps[1..]);
    }
  }

  lemma PieceAttaches(l: Ledger, start: Piece)
    requires Blank(l) && !HasGrid(l) && Says(start).Some? && Says(start).value.Preexec?
    ensures var r := PlayPiece(l, start);
            && HasGrid(r) && |r.entries| > 0
            && LastEntry(r).grid == Some(GridState(l.cols, l.rows, [Resized(l.cols, l.rows)]))
            && LastEntry(r).output == [] && LastEntry(r).command == Says(start).value.command
  {
    hide Says, Render, Typed;
  }

  function CodeOf(e: DcsEvent): Option<int> {
    if e.CommandFinished? then Some(e.exitCode) else None
  }

  lemma PieceSeals(l: Ledger, seal: Piece)
    requires HasGrid(l) && Says(seal).Some? && !Says(seal).value.Preexec?
    ensures var r, i, e := PlayPiece(l, seal), |l.entries| - 1, LastEntry(l);
            && i < |r.entries| && !r.entries[i].running && r.entries[i].exitCode == CodeOf(Says(seal).value)
            && r.entries[i].grid == Some(e.grid.value.(input := e.grid.value.input + Typed(Render(seal))))
            && r.entries[i].output == e.output && r.entries[i].command == e.command
  {
    hide Says, Render, Typed;
    var e := LastEntry(l);
    assert (e.output + Render(seal))[..|e.output|] == e.output;
  }

  /** A command's pieces: its Preexec frame, what happens while it runs, and the frame that seals it. */
  datatype Command = Command(start: Piece, body: seq<Piece>, seal: Piece)

  predicate IsCommand(c: Command) {
    && Says(c.start).Some? && Says(c.start).value.Preexec?
    && SealFree(c.body)
    && Says(c.seal).Some? && !Says(c.seal).value.Preexec?
  }

  function Spread(c: Command): seq<Piece> {
    [c.start] + (c.body + [c.seal])
  }

  /** The block a command leaves: its grid got exactly the bytes behind the Preexec frame through the sealing frame,
    its output is those bytes without event frames. */
  predicate LeftBy(e: Entry, c: Command, cols: nat, rows: nat)
    requires IsCommand(c)
  {
    && !e.running && e.exitCode == CodeOf(Says(c.seal).value)
    && e.grid == Some(GridState(cols, rows, [Resized(cols, rows)] + Typed(RenderAll(c.body) + Render(c.seal))))
    && e.output == OutputBytes(c.body)
    && e.command == LastCommand(Says(c.start).value.command, c.body)
  }

  lemma CommandIsPlayed(l: Ledger, c: Command)
    requires Blank(l) && !HasGrid(l) && IsCommand(c)
    ensures var i, r := |PlayPiece(l, c.start).entries| - 1, Play(l, Spread(c));
            i >= 0 && i < |r.entries| && LeftBy(r.entries[i], c, l.cols, l.rows)
  {
    var l1 := PlayPiece(l, c.start);
    var l2 := Play(l1, c.body);
    hide *;
    CommandIs(c);
    PieceAttaches(l, c.start);
    SpreadIsPlayed(l, c);
    SpanFills(l1, c.body);
    PieceSeals(l2, c.seal);
    LeftByIf(PlayPiece(l2, c.seal).entries[|l1.entries| - 1], c, l.cols, l.rows);
  }

  lemma LeftByIf(e: Entry, c: Command, cols: nat, rows: nat)
    requires IsCommand(c) && !e.running && e.exitCode == CodeOf(Says(c.seal).value)
    requires e.grid == Some(GridState(cols, rows,
                                      [Resized(cols, rows)] + Typed(RenderAll(c.body)) + Typed(Render(c.seal))))
    requires e.output == [] + OutputBytes(c.body)
    requires e.command == LastCommand(Says(c.start).value.command, c.body)
    ensures LeftBy(e, c, cols, rows)
  {
    hide Says, Render, RenderAll, Typed, OutputBytes, LastCommand, IsCommand;
    TypedConcatenates(RenderAll(c.body), Render(c.seal));
    Associate([Resized(cols, rows)], Typed(RenderAll(c.body)), Typed(Render(c.seal)));
  }

  lemma CommandIs(c: Command)
    requires IsCommand(c)
    ensures Says(c.start).Some? && Says(c.start).value.Preexec? && SealFree(c.body)
    ensures Says(c.seal).Some? && !Says(c.seal).value.Preexec?
  {
  }

  lemma SpreadIsPlayed(l: Ledger, c: Command)
    ensures Play(l, Spread(c)) == PlayPiece(Play(PlayPiece(l, c.start), c.body), c.seal)
  {
    var l1 := PlayPiece(l, c.start);
    hide PlayPiece, Play;
    PlayConcatenates(l, [c.start], c.body + [c.seal]);
    PlayConcatenates(l1, c.body, [c.seal]);
    PlayOne(l, c.start);
    PlayOne(Play(l1, c.body), c.seal);
  }

  lemma PlayOne(l: Ledger, p: Piece)
    ensures Play(l, [p]) == PlayPiece(l, p)
  {
    hide PlayPiece;
    assert [p][1..] == [];
  }

  /** ONE COMMAND IN A SESSION. */
  lemma CommandSpan(l: Ledger, before: seq<Piece>, c: Command, after: seq<Piece>)
    requires Blank(l) && IsCommand(c) && !HasGrid(Play(l, before))
    ensures var i, r := |PlayPiece(Play(l, before), c.start).entries| - 1, Play(l, before + (Spread(c) + after));
            0 <= i < |r.entries| && LeftBy(r.entries[i], c, l.cols, l.rows)
  {
    hide IsCommand, Play, PlayPiece, HasGrid, Blank, RenderAll, Render, Says, Typed, OutputBytes, Spread;
    PlayKeepsBlank(l, before);
    CommandIsPlayed(Play(l, before), c);
    PlayConcatenates(l, before, Spread(c) + after);
    PlayConcatenates(Play(l, before), Spread(c), after);
    var i := |PlayPiece(Play(l, before), c.start).entries| - 1;
    SealedEntriesStay(Play(Play(l, before), Spread(c)), after, i);
  }

  // ---- cuts that are safe ----

  /** Some frame was begun in an earlier call and ends in this one. */
  lemma {:induction false} EarlierFrameIsNotInside(c: Clock, rest: seq<byte>, at: nat)
    requires Aware(c) && c.core.isOurs && c.frameLength > at && Completes(c.core, rest)
    ensures !FramesInside(c, rest, at)
    decreases |rest|
  {
    if Emit(c.core, rest[0]).None? {
      AwareStep(c, rest[0]);
      assert Tick(c, rest[0]).frameLength == c.frameLength + 1;
      hide Tick, Aware, Emit;
      EarlierFrameIsNotInside(Tick(c, rest[0]), rest[1..], at + 1);
    }
  }

  /** A call that holds its event frames whole never stops on a slice. */
  lemma WholeFramesNeverPanic(em: Emulator, t: TermState, c: Clock, bytes: seq<byte>, now: nat)
    requires t.core == c.core && Aware(c) && FramesInside(c, bytes, 0)
    ensures TerminalModel.Feed(em, t, bytes, now).Fed?
  {
    hide FramesInside, Completes, TerminalModel.Feed;
    FeedPanicsExactlyWhen(em, t, bytes, now);
    if TerminalModel.Feed(em, t, bytes, now).Panicked? {
      EarlierFrameIsNotInside(c, bytes, 0);
    }
  }

  lemma {:induction false} WholeRunsNeverPanic(em: Emulator, t: TermState, s: Spec, calls: seq<Call>)
    requires Agrees(em, t, s) && Unsplit(s, calls) && Whole(s, calls)
    ensures DoAll(em, t, calls).Fed?
    decreases |calls|
  {
    if |calls| > 0 {
      hide Same, SpecRun, TerminalModel.Feed, Effect, FramesInside;
      var call := calls[0];
      match call {
        case Feed(bytes, now) =>
          WholeFramesNeverPanic(em, t, s.clock, bytes, now);
          FeedRefines(em, t, s, bytes, now);
        case Resize(cols, rows) => ResizeRefines(em, t, Flush(s).ledger, cols, rows);
        case Reset => ResetRefines(em, t, Flush(s).ledger);
      }
      WholeRunsNeverPanic(em, Do(em, t, call).state, SpecDo(s, call), calls[1..]);
    }
  }

  /** No cut separates an ESC from a backslash. */
  predicate CleanCuts(chunks: seq<seq<byte>>, afterEsc: bool)
    decreases |chunks|
  {
    |chunks| == 0 ||
    (var c := chunks[0];
     && (afterEsc && |c| > 0 ==> c[0] != BACKSLASH)
     && CleanCuts(chunks[1..], if |c| == 0 then afterEsc else c[|c| - 1] == ESC))
  }

  lemma {:induction false} CleanCutsSplitNothing(s: Spec, chunks: seq<seq<byte>>, nows: seq<nat>, afterEsc: bool)
    requires |chunks| == |nows| && CleanCuts(chunks, afterEsc) && (s.pending.Some? ==> afterEsc)
    ensures Unsplit(s, Feeds(chunks, nows))
    decreases |chunks|
  {
    if |chunks| > 0 {
      var c := chunks[0];
      if |c| == 0 { RunNothing(s); } else if SpecRun(s, c).pending.Some? { PendingEndsInEsc(s, c); }
      hide SpecRun;
      var calls := Feeds(chunks, nows);
      assert calls[0] == Feed(c, nows[0]) && calls[1..] == Feeds(chunks[1..], nows[1..]);
      CleanCutsSplitNothing(SpecRun(s, c), chunks[1..], nows[1..], if |c| == 0 then afterEsc else c[|c| - 1] == ESC);
    }
  }

  /** Every call begins outside escape sequences. */
  predicate CutOnGround(c: Core, chunks: seq<seq<byte>>)
    decreases |chunks|
  {
    |chunks| == 0 || (Idle(c) && CutOnGround(Run(c, chunks[0]), chunks[1..]))
  }

  /** Cuts on the ground are safe: they leave every event frame inside one call. */
  lemma {:induction false} GroundCutsAreWhole(s: Spec, chunks: seq<seq<byte>>, nows: seq<nat>)
    requires |chunks| == |nows| && Aware(s.clock) && CutOnGround(s.clock.core, chunks)
    ensures Whole(s, Feeds(chunks, nows))
    decreases |chunks|
  {
    if |chunks| > 0 {
      assert Begun(s.clock, 0);
      hide SpecRun, Aware, FramesInside, TickAll, Run, Begun, Idle;
      var calls := Feeds(chunks, nows);
      assert calls[0] == Feed(chunks[0], nows[0]) && calls[1..] == Feeds(chunks[1..], nows[1..]);
      BegunFramesAreInside(s.clock, chunks[0], 0);
      AwareRun(s.clock, chunks[0]);
      SpecRunsClock(s, chunks[0]);
      SpecRunsCore(s, chunks[0]);
      GroundCutsAreWhole(SpecRun(s, chunks[0]), chunks[1..], nows[1..]);
    }
  }

  // ---- end to end ----

  /** A SESSION, END TO END. Any pieces, cut anywhere but between the two bytes of a terminator: if the feeds complete,
    the terminal holds what playing the pieces says; if each event frame lies inside one call they do complete, and
    each block's stored output is its output cut right after the 5000th newline. */
  lemma SessionIsPlayed(em: Emulator, cols: nat, rows: nat, ps: seq<Piece>, chunks: seq<seq<byte>>, nows: seq<nat>)
    requires AllGood(ps) && Flatten(chunks) == RenderAll(ps) && |chunks| == |nows| && CleanCuts(chunks, false)
    ensures var l := Play(NewSpec(cols, rows).ledger, ps); var r := DoAll(em, New(cols, rows), Feeds(chunks, nows));
            && (r.Fed? ==> Same(em, r.state, l))
            && (Whole(NewSpec(cols, rows), Feeds(chunks, nows)) ==> r.Fed? && Kept(r.state, l))
  {
    var s, calls := NewSpec(cols, rows), Feeds(chunks, nows);
    assert Settled(s);
    hide *;
    InitiallyAgrees(em, cols, rows);
    NewIsSettled(cols, rows);
    CleanCutsSplitNothing(s, chunks, nows, false);
    FeedsAreOneStream(s, chunks, nows);
    StreamIsPlayed(s, ps);
    SettledIs(SpecRun(s, RenderAll(ps)));
    FlushSettles(SpecRun(s, RenderAll(ps)));
    if Whole(s, calls) {
      WholeRunsNeverPanic(em, New(cols, rows), s, calls);
      RunsKeep(em, New(cols, rows), s, calls);
    }
    if DoAll(em, New(cols, rows), calls).Fed? {
      RunsRefine(em, New(cols, rows), s, calls);
      AgreesIs(em, DoAll(em, New(cols, rows), calls).state, SpecDoAll(s, calls));
    }
  }

  lemma NewLedgerIs(cols: nat, rows: nat)
    ensures var l := NewSpec(cols, rows).ledger;
            Blank(l) && !HasGrid(l) && l.outside == [] && l.cols == cols && l.rows == rows
  {
  }

  lemma BlockShows(em: Emulator, t: TermState, l: Ledger, i: nat, c: Command, cols: nat, rows: nat)
    requires Same(em, t, l) && Kept(t, l) && i < |l.entries|
    requires IsCommand(c) && LeftBy(l.entries[i], c, cols, rows)
    ensures Outside(t.global) == l.outside
    ensures i < |t.store.blocks| && ShowsCommand(em, t.store.blocks[i], c, cols, rows)
  {
    hide Blocks.Inv, Says, Render, RenderAll, Typed, OutputBytes, Frozen, Outside, LastCommand, Blocks.CutAfter,
         Blocks.Newlines;
    assert SameBlock(em, t.store.blocks[i], l.entries[i]);
  }

  /** The block shows what the emulator makes of the bytes behind the Preexec frame through the sealing frame. */
  predicate ShowsCommand(em: Emulator, b: Blocks.Block<GridState>, c: Command, cols: nat, rows: nat)
    requires IsCommand(c)
  {
    var input := [Resized(cols, rows)] + Typed(RenderAll(c.body) + Render(c.seal));
    && !b.isRunning && b.exitCode == CodeOf(Says(c.seal).value)
    && b.command == LastCommand(Says(c.start).value.command, c.body)
    && b.frozen == Some(Frozen(em(input), cols, rows))
    && b.output == Blocks.CutAfter(OutputBytes(c.body), Blocks.MAX_BLOCK_OUTPUT_LINES)
  }

  /** ONE COMMAND, END TO END. Wherever a command's pieces stand in the session, one block shows what the emulator makes
    of the bytes behind its Preexec frame through its sealing frame, with the exit code that frame carried; and the
    global terminal's own bytes are those of no command. */
  lemma CommandLeavesItsBlock(em: Emulator, cols: nat, rows: nat, before: seq<Piece>, c: Command, after: seq<Piece>,
                              chunks: seq<seq<byte>>, nows: seq<nat>)
    requires var ps := before + (Spread(c) + after);
             AllGood(ps) && Flatten(chunks) == RenderAll(ps) && |chunks| == |nows| && CleanCuts(chunks, false)
    requires IsCommand(c) && !HasGrid(Play(NewSpec(cols, rows).ledger, before))
    requires Whole(NewSpec(cols, rows), Feeds(chunks, nows))
    ensures var r := DoAll(em, New(cols, rows), Feeds(chunks, nows));
            var i := |PlayPiece(Play(NewSpec(cols, rows).ledger, before), c.start).entries| - 1;
            && r.Fed? && 0 <= i < |r.state.store.blocks|
            && ShowsCommand(em, r.state.store.blocks[i], c, cols, rows)
            && Outside(r.state.global) == OutsideBytes(before + (Spread(c) + after), false)
  {
    var l, ps := NewSpec(cols, rows).ledger, before + (Spread(c) + after);
    NewLedgerIs(cols, rows);
    hide *;
    SessionIsPlayed(em, cols, rows, ps, chunks, nows);
    CommandSpan(l, before, c, after);
    OutsideFromNew(l, ps);
    var r := DoAll(em, New(cols, rows), Feeds(chunks, nows));
    var i := |PlayPiece(Play(l, before), c.start).entries| - 1;
    BlockShows(em, r.state, Play(l, ps), i, c, cols, rows);
  }

  // ---- the shell's own words ----

  lemma {:induction false} GoodConcatenates(a: seq<Piece>, b: seq<Piece>)
    requires AllGood(a) && AllGood(b)
    ensures AllGood(a + b)
  {
    hide Good;
    if |a| == 0 {
      assert a + b == b;
    } else {
      assert (a + b)[1..] == a[1..] + b;
      GoodConcatenates(a[1..], b);
    }
  }

  /** A command as the shell reports it: the Preexec message, its output, and its exit status. */
  function Typescript(command: seq<byte>, output: seq<byte>, status: int, st: Terminator, end: Terminator): Command {
    Command(Stream.Put(Message(WirePrinter.PreexecMessage(command), st)), [Styled(output)],
            Stream.Put(Message(WirePrinter.FinishedMessage(status), end)))
  }

  lemma OutputIsBody(output: seq<byte>, command: seq<byte>)
    requires Unheard(output)
    ensures var body: seq<Piece> := [Styled(output)];
            && AllGood(body) && SealFree(body) && RenderAll(body) == output && OutputBytes(body) == output
            && LastCommand(command, body) == command
  {
    var body: seq<Piece> := [Styled(output)];
    hide Unheard;
    assert body[1..] == [] && output + [] == output;
  }

  lemma GoodOne(p: Piece)
    requires Good(p)
    ensures AllGood([p])
  {
    hide Good;
    assert [p][1..] == [];
  }

  lemma HeardIs(command: seq<byte>, status: int)
    requires -I64_MAX <= status <= I64_MAX
    ensures WirePrinter.Heard(WirePrinter.PreexecMessage(command)) ==
            Some(Preexec(OrEmpty(IfText(Some(WirePrinter.AwkText(command))))))
    ensures WirePrinter.Heard(WirePrinter.FinishedMessage(status)) == Some(CommandFinished(WrapI32(status)))
  {
  }

  lemma CommandFrom(c: Command)
    requires AllGood(c.body) && SealFree(c.body) && Good(c.start) && Good(c.seal)
    requires Says(c.start).Some? && Says(c.start).value.Preexec? && Says(c.seal).Some? && !Says(c.seal).value.Preexec?
    ensures IsCommand(c) && AllGood(Spread(c))
  {
    hide Good, Says;
    GoodOne(c.start);
    GoodOne(c.seal);
    GoodConcatenates(c.body, [c.seal]);
    GoodConcatenates([c.start], c.body + [c.seal]);
  }

  lemma TypescriptIsCommand(command: seq<byte>, output: seq<byte>, status: int, st: Terminator, end: Terminator)
    requires Unheard(output) && -I64_MAX <= status <= I64_MAX
    ensures var c := Typescript(command, output, status, st, end);
            && IsCommand(c) && AllGood(Spread(c))
            && Says(c.start) == Some(Preexec(OrEmpty(IfText(Some(WirePrinter.AwkText(command))))))
            && Says(c.seal) == Some(CommandFinished(WrapI32(status)))
            && RenderAll(c.body) == output && OutputBytes(c.body) == output
            && LastCommand(Says(c.start).value.command, c.body) == Says(c.start).value.command
  {
    var c := Typescript(command, output, status, st, end);
    hide *;
    HeardIs(command, status);
    TypescriptIs(command, output, status, st, end);
    PutIsGood(Message(WirePrinter.PreexecMessage(command), st));
    PutIsGood(Message(WirePrinter.FinishedMessage(status), end));
    OutputIsBody(output, Says(c.start).value.command);
    CommandFrom(c);
  }

  lemma TypescriptIs(command: seq<byte>, output: seq<byte>, status: int, st: Terminator, end: Terminator)
    ensures Typescript(command, output, status, st, end) ==
            Command(Stream.Put(Message(WirePrinter.PreexecMessage(command), st)), [Styled(output)],
                    Stream.Put(Message(WirePrinter.FinishedMessage(status), end)))
  {
  }

  /** FROM SHELL TO BLOCK. The shell runs any command and prints any output of whole escape sequences, between any other
    messages and text; the stream is cut anywhere outside event frames and terminators. Then one block carries the
    command's text, its exit status in 32 bits, its output up to the 5000th newline, and the picture the emulator makes
    of exactly that output and the frame that ended it. */
  lemma ShellCommandLeavesItsBlock(em: Emulator, cols: nat, rows: nat, before: seq<Item>, command: seq<byte>,
                                   output: seq<byte>, status: int, st: Terminator, end: Terminator, after: seq<Item>,
                                   chunks: seq<seq<byte>>, nows: seq<nat>) returns (i: nat)
    requires AllUnheard(before) && AllUnheard(after) && Unheard(output) && -I64_MAX <= status <= I64_MAX
    requires !HasGrid(Play(NewSpec(cols, rows).ledger, PutAll(before)))
    requires var c := Typescript(command, output, status, st, end);
             Flatten(chunks) == RenderAll(PutAll(before) + (Spread(c) + PutAll(after)))
    requires |chunks| == |nows| && CleanCuts(chunks, false) && Whole(NewSpec(cols, rows), Feeds(chunks, nows))
    ensures var r := DoAll(em, New(cols, rows), Feeds(chunks, nows));
            var frame := Render(Typescript(command, output, status, st, end).seal);
            && r.Fed? && i < |r.state.store.blocks|
            && var b := r.state.store.blocks[i];
            && b.command == OrEmpty(IfText(Some(WirePrinter.AwkText(command))))
            && b.exitCode == Some(WrapI32(status)) && !b.isRunning
            && b.frozen == Some(Frozen(em([Resized(cols, rows)] + Typed(output + frame)), cols, rows))
            && b.output == Blocks.CutAfter(output, Blocks.MAX_BLOCK_OUTPUT_LINES)
  {
    hide *;
    var c := Typescript(command, output, status, st, end);
    TypescriptIsCommand(command, output, status, st, end);
    ItemsAreExpected(before, 0);
    ItemsAreExpected(after, 0);
    GoodConcatenates(Spread(c), PutAll(after));
    GoodConcatenates(PutAll(before), Spread(c) + PutAll(after));
    CommandLeavesItsBlock(em, cols, rows, PutAll(before), c, PutAll(after), chunks, nows);
    i := |PlayPiece(Play(NewSpec(cols, rows).ledger, PutAll(before)), c.start).entries| - 1;
    ShowsIs(em, DoAll(em, New(cols, rows), Feeds(chunks, nows)).state.store.blocks[i], c, cols, rows);
    CodeIs(Says(c.seal).value);
  }

  lemma CodeIs(e: DcsEvent)
    ensures e.CommandFinished? ==> CodeOf(e) == Some(e.exitCode)
  {
  }

  lemma ShowsIs(em: Emulator, b: Blocks.Block<GridState>, c: Command, cols: nat, rows: nat)
    requires IsCommand(c) && ShowsCommand(em, b, c, cols, rows)
    ensures Says(c.start).Some? && Says(c.start).value.Preexec? && Says(c.seal).Some?
    ensures !b.isRunning && b.exitCode == CodeOf(Says(c.seal).value)
    ensures b.command == LastCommand(Says(c.start).value.command, c.body)
    ensures b.frozen == Some(Frozen(em([Resized(cols, rows)] + Typed(RenderAll(c.body) + Render(c.seal))), cols, rows))
    ensures b.output == Blocks.CutAfter(OutputBytes(c.body), Blocks.MAX_BLOCK_OUTPUT_LINES)
  {
    hide Says, RenderAll, Render, OutputBytes, LastCommand, Frozen, Blocks.CutAfter;
  }

  lemma OneCallIsSafe(cols: nat, rows: nat, stream: seq<byte>, now: nat)
    ensures Flatten([stream]) == stream && CleanCuts([stream], false)
    ensures Whole(NewSpec(cols, rows), Feeds([stream], [now]))
  {
    assert Aware(NewSpec(cols, rows).clock) && Idle(START);
    hide Run;
    assert [stream][1..] == [] && stream + [] == stream;
    assert CutOnGround(START, [stream]);
    GroundCutsAreWhole(NewSpec(cols, rows), [stream], [now]);
  }

  lemma OneCallRuns(em: Emulator, t: TermState, stream: seq<byte>, now: nat)
    ensures DoAll(em, t, Feeds([stream], [now])) == TerminalModel.Feed(em, t, stream, now)
  {
    hide TerminalModel.Feed;
    var calls := Feeds([stream], [now]);
    assert calls == [Feed(stream, now)] && calls[1..] == [];
  }

  /** The plainest case: a whole command in one call to a new terminal. */
  lemma ShellCommandInOneCall(em: Emulator, cols: nat, rows: nat, command: seq<byte>, output: seq<byte>, status: int,
                              st: Terminator, end: Terminator, now: nat) returns (i: nat)
    requires Unheard(output) && -I64_MAX <= status <= I64_MAX
    ensures var r := TerminalModel.Feed(em, New(cols, rows),
                                        RenderAll(Spread(Typescript(command, output, status, st, end))), now);
            && r.Fed? && i < |r.state.store.blocks|
            && r.state.store.blocks[i].command == OrEmpty(IfText(Some(WirePrinter.AwkText(command))))
            && r.state.store.blocks[i].exitCode == Some(WrapI32(status))
            && r.state.store.blocks[i].output == Blocks.CutAfter(output, Blocks.MAX_BLOCK_OUTPUT_LINES)
  {
    var none: seq<Item> := [];
    NoItems(cols, rows);
    hide *;
    var c := Typescript(command, output, status, st, end);
    var stream := RenderAll(Spread(c));
    OneCallIsSafe(cols, rows, stream, now);
    assert [] + (Spread(c) + []) == Spread(c);
    i := ShellCommandLeavesItsBlock(em, cols, rows, none, command, output, status, st, end, none, [stream], [now]);
    OneCallRuns(em, New(cols, rows), stream, now);
  }

  lemma NoItems(cols: nat, rows: nat)
    ensures PutAll([]) == [] && AllUnheard([]) && !HasGrid(Play(NewSpec(cols, rows).ledger, []))
  {
  }
}
