/** What one extra cut changes: mirroring works on whole slices, so a cut can change what the global terminal gets. */
module Slices {
  import opened Bytes
  import opened Wire
  import opened Sniffer
  import opened Grid
  import opened Stream
  import opened TerminalModel
  import opened Runs
  import opened AltScreen
  import Blocks
  import Colour
  import WirePrinter

  // ---- feeds that complete no event ----

  /** What a slice does to the open grid and to the global terminal. */
  lemma DispatchEffect(em: Emulator, t: TermState, bytes: seq<byte>)
    ensures var r := Dispatch(em, t, bytes);
            match OpenGrid(t.store)
            case None => OpenGrid(r.store) == None && Seen(r.global) == Seen(t.global) + Typed(bytes)
            case Some(g) =>
              && OpenGrid(r.store) == Some(g.(input := g.input + Typed(bytes)))
              && Seen(r.global) ==
                 Seen(t.global) + if Alt(em, g.input) || Alt(em, g.input + Typed(bytes)) then Typed(bytes) else []
  {
    var grid := OpenGrid(t.store);
    SeenGrows(t.global, bytes, grid.Some?);
    assert Seen(t.global) + [] == Seen(t.global);
    if |bytes| == 0 {
      assert Typed(bytes) == [];
      if grid.Some? { assert grid.value.input + [] == grid.value.input; }
    }
    hide Seen, Typed, Tag;
  }

  lemma NothingHappened(ls: seq<Located>)
    ensures EventOf(ls) == [] ==> ls == []
  {
    assert |ls| > 0 ==> |EventOf(ls)| > 0;
  }

  /** A feed that completes no event is one dispatched slice. */
  lemma QuietFeed(em: Emulator, t: TermState, bytes: seq<byte>, now: nat)
    requires Events(t.core, bytes) == []
    ensures var r := TerminalModel.Feed(em, t, bytes, now);
            && r.Fed? && r.state.core == Run(t.core, bytes)
            && r.state.global == Dispatch(em, t, bytes).global
            && OpenGrid(r.state.store) == OpenGrid(Dispatch(em, t, bytes).store)
  {
    var k := Tracker(t.core, None, t.frameStart);
    LocatedEventsAreTheEvents(k, bytes, 0);
    NothingHappened(Locate(k, bytes, 0));
    var t1 := FeedIs(em, t, bytes, now);
    hide Walk, Locate, TerminalModel.Feed, Events, Run;
    WalkNone(em, t1, bytes, 0, now);
    SlicesIgnoreTheSniffer(em, t, t1, bytes);
    hide Dispatch;
    CaptureKeepsGrid(Dispatch(em, t1, bytes), bytes);
  }

  lemma SlicesIgnoreTheSniffer(em: Emulator, t: TermState, u: TermState, bytes: seq<byte>)
    requires u.store == t.store && u.global == t.global
    ensures Dispatch(em, u, bytes).global == Dispatch(em, t, bytes).global
    ensures Dispatch(em, u, bytes).store == Dispatch(em, t, bytes).store && Dispatch(em, u, bytes).core == u.core
  {
  }

  lemma CaptureKeepsGrid(t: TermState, bytes: seq<byte>)
    ensures Capture(t, bytes).global == t.global && Capture(t, bytes).core == t.core
    ensures OpenGrid(Capture(t, bytes).store) == OpenGrid(t.store)
  {
    hide Blocks.Captured, Blocks.Newlines;
  }

  // ---- one extra cut ----

  lemma TypedJoins(x: seq<GridInput>, a: seq<byte>, b: seq<byte>)
    ensures (x + Typed(a)) + Typed(b) == x + Typed(a + b)
  {
    assert Typed(a + b) == Typed(a) + Typed(b);
  }

  lemma SameTails(x: seq<GridInput>, a: seq<GridInput>, b: seq<GridInput>)
    ensures x + a == x + b <==> a == b
  {
    if x + a == x + b {
      assert a == (x + a)[|x|..] && b == (x + b)[|x|..];
    }
  }

  lemma Sizes(a: seq<byte>, b: seq<byte>)
    ensures |Typed(a)| == |a| && Typed(a + b) == Typed(a) + Typed(b)
  {
  }

  /** THE CUT SHOWS, EXACTLY WHEN. Bytes that complete no event, fed whole or with one cut more: an open grid gets the
    same input either way. The global terminal gets the same input exactly when the grid is on the alternate screen at
    the cut just if it is so before or after the bytes, or is so at both ends. No escape sequence need be cut for the
    difference. */
  lemma ExtraCutShowsExactlyWhen(em: Emulator, t: TermState, a: seq<byte>, b: seq<byte>, n0: nat, n1: nat, n2: nat)
    requires |a| > 0 && |b| > 0 && Events(t.core, a + b) == []
    ensures var whole, first := TerminalModel.Feed(em, t, a + b, n0), TerminalModel.Feed(em, t, a, n1);
            && whole.Fed? && first.Fed?
            && var second := TerminalModel.Feed(em, first.state, b, n2);
            && second.Fed? && OpenGrid(second.state.store) == OpenGrid(whole.state.store)
            && (Seen(second.state.global) == Seen(whole.state.global) <==>
                match OpenGrid(t.store)
                case None => true
                case Some(g) =>
                  var p, q, r := Alt(em, g.input), Alt(em, g.input + Typed(a)), Alt(em, g.input + Typed(a + b));
                  (p && r) || q == (p || r))
  {
    hide *;
    FeedingConcatenates(t.core, a, b);
    NothingIn(Events(t.core, a), Events(Run(t.core, a), b));
    QuietFeed(em, t, a + b, n0);
    QuietFeed(em, t, a, n1);
    var s := TerminalModel.Feed(em, t, a, n1).state;
    QuietFeed(em, s, b, n2);
    DispatchEffect(em, t, a + b);
    DispatchEffect(em, t, a);
    DispatchEffect(em, s, b);
    var x := Seen(t.global);
    Sizes(a, b);
    Sizes(b, a);
    TypedJoins(x, a, b);
    if OpenGrid(t.store).Some? {
      var y := OpenGrid(t.store).value.input;
      TypedJoins(y, a, b);
      ShownExactlyWhen(x, Typed(a), Typed(b), Alt(em, y), Alt(em, y + Typed(a)), Alt(em, y + Typed(a + b)));
    }
  }

  lemma NothingIn<T>(a: seq<T>, b: seq<T>)
    ensures a + b == [] ==> a == [] && b == []
  {
    assert |a + b| == |a| + |b|;
  }

  lemma ShownExactlyWhen(x: seq<GridInput>, a: seq<GridInput>, b: seq<GridInput>, p: bool, q: bool, r: bool)
    requires |a| > 0 && |b| > 0
    ensures (x + if p || q then a else []) + (if q || r then b else []) == x + (if p || r then a + b else [])
            <==> (p && r) || q == (p || r)
  {
    var first, second := if p || q then a else [], if q || r then b else [];
    assert (x + first) + second == x + (first + second);
    SameTails(x, first + second, if p || r then a + b else []);
    Lengths(a, b, p || q, q || r, p || r);
  }

  lemma Lengths(a: seq<GridInput>, b: seq<GridInput>, first: bool, second: bool, whole: bool)
    requires |a| > 0 && |b| > 0
    ensures (if first then a else []) + (if second then b else []) == (if whole then a + b else [])
            <==> first == whole && second == whole
  {
    var cut := (if first then a else []) + (if second then b else []);
    assert |cut| == (if first then |a| else 0) + (if second then |b| else 0);
  }

  /** THE FLAGS PART, EXACTLY WHEN. From agreeing flags, two slices leave the global terminal and the open grid on
    different screens exactly when the grid enters the alternate screen in the second slice only, and the second slice
    by itself does not take the global terminal there. */
  lemma SlicesSplitFlagsExactlyWhen(em: Emulator, atRest: Rest, t: TermState, a: seq<byte>, b: seq<byte>)
    requires Lawful(em, atRest) && FlagsAgree(em, atRest, t) && OpenGrid(t.store).Some?
    ensures var r := Dispatch(em, Dispatch(em, t, a), b); var x, y := Seen(t.global), OpenGrid(t.store).value.input;
            && OpenGrid(r.store).Some?
            && (Alt(em, Seen(r.global)) != Alt(em, OpenGrid(r.store).value.input) <==>
                !Alt(em, y) && !Alt(em, y + Typed(a)) && Alt(em, y + Typed(a + b)) && !Alt(em, x + Typed(b)))
  {
    var x, y := Seen(t.global), OpenGrid(t.store).value.input;
    DispatchEffect(em, t, a);
    DispatchEffect(em, Dispatch(em, t, a), b);
    TypedJoins(x, a, b);
    TypedJoins(y, a, b);
    FromRest(em, atRest, x, y, Typed(a));
    FromRest(em, atRest, x, y, Typed(a + b));
    assert x + [] == x && (x + Typed(a)) + [] == x + Typed(a);
    hide Dispatch, Seen, Typed, Lawful;
  }

  lemma FromRest(em: Emulator, atRest: Rest, x: seq<GridInput>, y: seq<GridInput>, more: seq<GridInput>)
    requires Lawful(em, atRest) && Together(em, atRest, x, y)
    ensures Alt(em, x) == Alt(em, y) && Alt(em, x + more) == Alt(em, y + more)
  {
  }

  // ---- both on a real stream ----

  /** DECSET and DECRST 1049, as full-screen programs send them. */
  const ENTER: seq<byte> := [ESC] + Ascii("[?1049h")
  const EXIT: seq<byte> := [ESC] + Ascii("[?1049l")

  predicate EndsWith(input: seq<GridInput>, tail: seq<GridInput>) {
    |tail| <= |input| && input[|input| - |tail|..] == tail
  }

  /** On the alternate screen: the last switch was an entry. */
  predicate Entered(input: seq<GridInput>) {
    |input| > 0 &&
    (EndsWith(input, Typed(ENTER)) || (!EndsWith(input, Typed(EXIT)) && Entered(input[..|input| - 1])))
  }

  /** An emulator that knows these two sequences. */
  function SwitchingEmulator(input: seq<GridInput>): View {
    View(0, (row, col) => Cell(SPACE, Colour.Named(Colour.Foreground), Colour.Named(Colour.Background), {}), 0, 0,
         Entered(input))
  }

  lemma TailAt(input: seq<GridInput>, tail: seq<GridInput>, k: nat)
    requires k < |tail|
    ensures EndsWith(input, tail) ==> input[|input| - |tail| + k] == tail[k]
  {
    if EndsWith(input, tail) { assert input[|input| - |tail|..][k] == tail[k]; }
  }

  /** Without one of the bytes of the entry sequence there is no entry. */
  lemma {:induction false} NoEntry(input: seq<GridInput>, k: nat)
    requires k < |ENTER| && forall i :: 0 <= i < |input| ==> input[i] != Byte(ENTER[k])
    ensures !Entered(input)
  {
    if |input| > 0 {
      NoEntry(input[..|input| - 1], k);
      TailAt(input, Typed(ENTER), k);
    }
  }

  lemma EntersAtEnd(input: seq<GridInput>)
    ensures Entered(input + Typed(ENTER))
  {
    var all := input + Typed(ENTER);
    assert all[|all| - |Typed(ENTER)|..] == Typed(ENTER);
  }

  /** A terminal on which a shell just announced a command. */
  function Announced(em: Emulator, cols: nat, rows: nat, command: seq<byte>, st: Terminator, now: nat): TermState {
    var r := TerminalModel.Feed(em, New(cols, rows), Announcement(command, st), now);
    if r.Fed? then r.state else New(cols, rows)
  }

  function Announcement(command: seq<byte>, st: Terminator): seq<byte> {
    Render(Stream.Put(Message(WirePrinter.PreexecMessage(command), st)))
  }

  lemma FirstPreexec(em: Emulator, cols: nat, rows: nat, frame: seq<byte>, command: seq<byte>, now: nat)
    requires Locate(Tracker(START, None, None), frame, 0) == [Located(Some(0), |frame|, Preexec(command))]
    requires |frame| > 0
    ensures var r := TerminalModel.Feed(em, New(cols, rows), frame, now);
            && r.Fed? && r.state.core == Run(START, frame)
            && OpenGrid(r.state.store) == Some(GridState(cols, rows, [Resized(cols, rows)]))
            && Seen(r.state.global) == [Resized(cols, rows)] + Typed(frame)
  {
    hide *;
    var t := New(cols, rows);
    NewIs(cols, rows);
    var t1 := FeedIs(em, t, frame, now);
    var sent := Dispatch(em, t1, frame);
    DispatchEffect(em, t1, frame);
    NoGridNoStore(em, t1, frame);
    WalkSingle(em, t1, frame, Preexec(command), now);
    FirstBlock(em, sent, command, now);
    var done := ApplyEvent(em, sent, Preexec(command), now);
    DispatchNone(em, done);
    CaptureKeepsGrid(done, []);
  }

  lemma NewIs(cols: nat, rows: nat)
    ensures var t := New(cols, rows);
            && t.core == START && t.frameStart == None && t.store == Blocks.EMPTY && OpenGrid(t.store) == None
            && t.cols == cols && t.rows == rows && Seen(t.global) == [Resized(cols, rows)]
  {
  }

  lemma NoGridNoStore(em: Emulator, t: TermState, bytes: seq<byte>)
    requires OpenGrid(t.store) == None
    ensures var r := Dispatch(em, t, bytes);
            r.store == t.store && r.core == t.core && r.cols == t.cols && r.rows == t.rows
  {
  }

  /** A call that is one frame. */
  lemma WalkSingle(em: Emulator, t: TermState, frame: seq<byte>, e: DcsEvent, now: nat)
    ensures var done := ApplyEvent(em, Dispatch(em, t, frame), e, now);
            Walk(em, t, frame, 0, [Located(Some(0), |frame|, e)], now) == Fed(Capture(Dispatch(em, done, []), []))
  {
    hide Dispatch, ApplyEvent, Capture;
    assert frame[..|frame|] == frame && frame[|frame|..] == [];
    WalkNone(em, ApplyEvent(em, Dispatch(em, t, frame), e, now), [], |frame|, now);
  }

  lemma FirstBlock(em: Emulator, t: TermState, command: seq<byte>, now: nat)
    requires t.store == Blocks.EMPTY
    ensures var done := ApplyEvent(em, t, Preexec(command), now);
            && OpenGrid(done.store) == Some(GridState(t.cols, t.rows, [Resized(t.cols, t.rows)]))
            && done.global == t.global && done.core == t.core
  {
    hide CurrentLine;
  }

  /** After an announcement the command's grid is fresh, and the global terminal has seen the frame. */
  lemma AnnouncedIs(em: Emulator, cols: nat, rows: nat, command: seq<byte>, st: Terminator, now: nat)
    ensures var t := Announced(em, cols, rows, command, st, now);
            && Idle(t.core)
            && OpenGrid(t.store) == Some(GridState(cols, rows, [Resized(cols, rows)]))
            && Seen(t.global) == [Resized(cols, rows)] + Typed(Announcement(command, st))
    ensures TerminalModel.Feed(em, New(cols, rows), Announcement(command, st), now).Fed?
  {
    hide *;
    var item := Message(WirePrinter.PreexecMessage(command), st);
    var k := Tracker(START, None, None);
    StartIsIdle();
    PutIsGood(item);
    PieceIsLocated(k, Stream.Put(item), 0);
    TrackingRuns(k, Announcement(command, st), 0);
    AnnouncementIs(command, st);
    var heard := OrEmpty(IfText(Some(WirePrinter.AwkText(command))));
    FirstPreexec(em, cols, rows, Announcement(command, st), heard, now);
    AnnouncedAfter(em, cols, rows, command, st, now);
  }

  lemma StartIsIdle()
    ensures Idle(START)
  {
  }

  lemma AnnouncementIs(command: seq<byte>, st: Terminator)
    ensures var item := Message(WirePrinter.PreexecMessage(command), st);
            && Announcement(command, st) == Render(Stream.Put(item)) && |Announcement(command, st)| > 0
            && WirePrinter.Heard(item.message) == Some(Preexec(OrEmpty(IfText(Some(WirePrinter.AwkText(command))))))
  {
    hide WirePrinter.AwkText, IfText;
  }

  lemma AnnouncedAfter(em: Emulator, cols: nat, rows: nat, command: seq<byte>, st: Terminator, now: nat)
    ensures var r := TerminalModel.Feed(em, New(cols, rows), Announcement(command, st), now);
            r.Fed? ==> Announced(em, cols, rows, command, st, now) == r.state
  {
  }

  /** The announcement holds no `h`. */
  lemma AnnouncementIsPlain(command: seq<byte>, st: Terminator)
    ensures forall j :: 0 <= j < |Announcement(command, st)| ==> Announcement(command, st)[j] != ENTER[7]
    ensures var a := Announcement(command, st); |a| > 0 && a[|a| - 1] != ENTER[6]
  {
    var hex := WirePrinter.HexEncode(WirePrinter.Payload(WirePrinter.PreexecMessage(command)));
    hide WirePrinter.HexEncode, WirePrinter.Payload;
    assert Announcement(command, st) == DCS + (OURS + hex) + TerminatorBytes(st);
  }

  lemma EntryIsQuiet(c: Core)
    requires Idle(c)
    ensures Events(c, ENTER) == []
  {
    assert ENTER == [ESC, 0x5B] + (Ascii("?1049") + [0x68]);
    CsiIsUnheard(Ascii("?1049"), 0x68);
    assert Alike(START, c);
    AlikeRun(START, c, ENTER);
  }

  /** PLAIN OUTPUT IS MIRRORED WITH ITS SLICE. A command prints plain text, then enters the alternate screen. In one
    call the text goes to the global terminal, too; in two it does not. */
  lemma PlainOutputIsMirroredWithItsSlice(cols: nat, rows: nat, command: seq<byte>, st: Terminator, text: seq<byte>,
                                          now: nat)
    requires |text| > 0 && EscFree(text)
    ensures var em := SwitchingEmulator; var t := Announced(em, cols, rows, command, st, now);
            var whole, first := TerminalModel.Feed(em, t, text + ENTER, now), TerminalModel.Feed(em, t, text, now);
            && whole.Fed? && first.Fed?
            && var second := TerminalModel.Feed(em, first.state, ENTER, now);
            && second.Fed? && OpenGrid(second.state.store) == OpenGrid(whole.state.store)
            && Seen(whole.state.global) == Seen(t.global) + Typed(text + ENTER)
            && Seen(second.state.global) == Seen(t.global) + Typed(ENTER)
  {
    hide *;
    var em := SwitchingEmulator;
    var t := Announced(em, cols, rows, command, st, now);
    var g := [Resized(cols, rows)];
    AnnouncedIs(em, cols, rows, command, st, now);
    PlainIsQuiet(t.core, text);
    EntryIsQuiet(Run(t.core, text));
    FeedingConcatenates(t.core, text, ENTER);
    QuietFeed(em, t, text + ENTER, now);
    QuietFeed(em, t, text, now);
    var s := TerminalModel.Feed(em, t, text, now).state;
    QuietFeed(em, s, ENTER, now);
    DispatchEffect(em, t, text + ENTER);
    DispatchEffect(em, t, text);
    DispatchEffect(em, s, ENTER);
    TypedJoins(g, text, ENTER);
    PlainFlags(g, cols, rows, text);
    assert Seen(t.global) + [] == Seen(t.global);
  }

  lemma PlainFlags(g: seq<GridInput>, cols: nat, rows: nat, text: seq<byte>)
    requires g == [Resized(cols, rows)] && EscFree(text)
    ensures var em := SwitchingEmulator;
            !Alt(em, g) && !Alt(em, g + Typed(text)) && Alt(em, g + Typed(text + ENTER))
  {
    NoEntry(g, 0);
    NoEntry(g + Typed(text), 0);
    TypedJoins(g, text, ENTER);
    EntersAtEnd(g + Typed(text));
  }

  lemma PlainIsQuiet(c: Core, text: seq<byte>)
    requires Idle(c) && EscFree(text)
    ensures Events(c, text) == [] && Idle(Run(c, text))
  {
    var k := Tracker(c, None, None);
    TextIsSilent(k, text, 0);
    TrackingRuns(k, text, 0);
    LocatedEventsAreTheEvents(k, text, 0);
  }

  /** STRADDLING BREAKS MIRRORING. The entry sequence cut before its last byte leaves the grid on the alternate screen
    and the global terminal off it; in one call both are on it. */
  lemma StraddlingBreaksMirroring(cols: nat, rows: nat, command: seq<byte>, st: Terminator, now: nat)
    ensures var em := SwitchingEmulator; var t := Announced(em, cols, rows, command, st, now);
            var whole, first := TerminalModel.Feed(em, t, ENTER, now), TerminalModel.Feed(em, t, ENTER[..7], now);
            && whole.Fed? && first.Fed?
            && var cut := TerminalModel.Feed(em, first.state, ENTER[7..], now);
            && cut.Fed? && OpenGrid(cut.state.store).Some? && OpenGrid(whole.state.store).Some?
            && Alt(em, OpenGrid(cut.state.store).value.input) && !Alt(em, Seen(cut.state.global))
            && Alt(em, OpenGrid(whole.state.store).value.input) && Alt(em, Seen(whole.state.global))
  {
    hide *;
    var em := SwitchingEmulator;
    var t := Announced(em, cols, rows, command, st, now);
    var g := [Resized(cols, rows)];
    var x := g + Typed(Announcement(command, st));
    EntryInTwo();
    var a, b := ENTER[..7], ENTER[7..];
    AnnouncedIs(em, cols, rows, command, st, now);
    EntryIsQuiet(t.core);
    FeedingConcatenates(t.core, a, b);
    NothingIn(Events(t.core, a), Events(Run(t.core, a), b));
    QuietFeed(em, t, ENTER, now);
    QuietFeed(em, t, a, now);
    var s := TerminalModel.Feed(em, t, a, now).state;
    QuietFeed(em, s, b, now);
    DispatchEffect(em, t, ENTER);
    DispatchEffect(em, t, a);
    DispatchEffect(em, s, b);
    TypedJoins(g, a, b);
    StraddledFlags(cols, rows, command, st);
    assert x + [] == x;
  }

  lemma EntryInTwo()
    ensures |ENTER| == 8 && ENTER[..7] + ENTER[7..] == ENTER
  {
    assert ENTER[..7] + ENTER[7..] == ENTER;
  }

  lemma StraddledFlags(cols: nat, rows: nat, command: seq<byte>, st: Terminator)
    ensures |ENTER| == 8
    ensures var em, g := SwitchingEmulator, [Resized(cols, rows)]; var x := g + Typed(Announcement(command, st));
            && !Alt(em, g) && !Alt(em, g + Typed(ENTER[..7])) && Alt(em, g + Typed(ENTER))
            && Alt(em, x + Typed(ENTER)) && !Alt(em, x + Typed(ENTER[7..]))
  {
    var g: seq<GridInput> := [Resized(cols, rows)];
    var x := g + Typed(Announcement(command, st));
    AnnouncementIsPlain(command, st);
    hide Announcement;
    NoEntry(g, 7);
    NoEntry(x, 7);
    NoEntry(g + Typed(ENTER[..7]), 7);
    EntersAtEnd(g);
    EntersAtEnd(x);
    LoneByteIsNoEntry(x);
  }

  /** The last byte of the entry sequence behind anything that does not end like the rest of it. */
  lemma LoneByteIsNoEntry(x: seq<GridInput>)
    requires |x| > 0 && x[|x| - 1] != Byte(ENTER[6]) && !Entered(x)
    ensures !Entered(x + Typed(ENTER[7..]))
  {
    var all := x + Typed(ENTER[7..]);
    assert all[..|all| - 1] == x && all[|all| - 2] == x[|x| - 1];
    TailAt(all, Typed(ENTER), 6);
  }
}
