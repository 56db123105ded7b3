/** `Terminal::feed` as a function on values: slices, routing, capture, events. */
module TerminalModel {
  import opened Bytes
  import opened Wire
  import opened Sniffer
  import opened Grid
  import Blocks

  /** Input of the global terminal; `mirrored` marks alt-screen bytes that also went to a block's grid. */
  datatype Tagged = Tagged(input: GridInput, mirrored: bool)

  datatype TermState = TermState(
    core: Core,
    frameStart: Option<nat>,
    queue: seq<DcsEvent>,
    store: Blocks.StoreState,
    global: seq<Tagged>,
    cols: nat,
    rows: nat)

  /** The feed either completes or stops on a slice out of range. */
  datatype Outcome = Panicked | Fed(state: TermState)

  function New(cols: nat, rows: nat): TermState {
    TermState(START, None, [], Blocks.EMPTY, [Tagged(Resized(cols, rows), false)], cols, rows)
  }

  function Tag(bytes: seq<byte>, mirrored: bool): seq<Tagged> {
    seq(|bytes|, i requires 0 <= i < |bytes| => Tagged(Byte(bytes[i]), mirrored))
  }

  /** What the global emulator has seen. */
  function Seen(global: seq<Tagged>): seq<GridInput> {
    seq(|global|, i requires 0 <= i < |global| => global[i].input)
  }

  function OpenGrid(s: Blocks.StoreState): Option<GridState> {
    if s.openIndex.Some? && s.openIndex.value < |s.blocks| then s.blocks[s.openIndex.value].grid else None
  }

  /** Bytes go to the open block's grid if it has one, and to the global terminal otherwise; while the grid shows
    the alternate screen, before or after the slice, to both. */
  function Dispatch(em: Emulator, t: TermState, bytes: seq<byte>): TermState {
    var grid := OpenGrid(t.store);
    if |bytes| == 0 then t
    else if grid.None? then t.(global := t.global + Tag(bytes, false))
    else
      var wasAlt, isAlt := em(grid.value.input).alt, em(grid.value.input + Typed(bytes)).alt;
      t.(store := Blocks.FeedOpen(t.store, bytes),
         global := if wasAlt || isAlt then t.global + Tag(bytes, true) else t.global)
  }

  lemma DispatchIs(em: Emulator, t: TermState, bytes: seq<byte>)
    requires |bytes| > 0
    ensures match OpenGrid(t.store)
            case None => Dispatch(em, t, bytes) == t.(global := t.global + Tag(bytes, false))
            case Some(g) =>
              Dispatch(em, t, bytes) ==
              t.(store := Blocks.FeedOpen(t.store, bytes),
                 global := if em(g.input).alt || em(g.input + Typed(bytes)).alt then t.global + Tag(bytes, true)
                           else t.global)
  {
  }

  function Capture(t: TermState, bytes: seq<byte>): TermState {
    t.(store := Blocks.CaptureOpen(t.store, bytes))
  }

  function LastRunning(bs: seq<Blocks.Block<GridState>>): (r: Option<nat>)
    ensures r.Some? ==> r.value < |bs| && bs[r.value].isRunning
  {
    if |bs| == 0 then None
    else if bs[|bs| - 1].isRunning then Some(|bs| - 1)
    else LastRunning(bs[..|bs| - 1])
  }

  function CurrentLine(em: Emulator, t: TermState): (line: int)
    ensures I32_MIN <= line <= I32_MAX
  {
    var i := LastRunning(t.store.blocks);
    if i.Some? && t.store.blocks[i.value].grid.Some? then
      WrapI32(em(t.store.blocks[i.value].grid.value.input).cursorLine)
    else
      var v := em(Seen(t.global));
      WrapI32(v.history + v.cursorLine)
  }

  lemma {:induction false} LastRunningAmong(bs: seq<Blocks.Block<GridState>>, open: Option<nat>)
    requires forall i :: 0 <= i < |bs| ==> bs[i].isRunning == (open == Some(i))
    ensures LastRunning(bs) == if open.Some? && open.value < |bs| then open else None
  {
    if |bs| > 0 && !bs[|bs| - 1].isRunning { LastRunningAmong(bs[..|bs| - 1], open); }
  }

  /** In a coherent store the latest running block is the open one. */
  lemma LastRunningIsOpen(s: Blocks.StoreState)
    requires Blocks.Inv(s)
    ensures LastRunning(s.blocks) == s.openIndex
  {
    forall i | 0 <= i < |s.blocks| ensures s.blocks[i].isRunning == (s.openIndex == Some(i)) {
      assert Blocks.BlockOk(s.blocks[i], s.openIndex == Some(i));
    }
    LastRunningAmong(s.blocks, s.openIndex);
  }

  /** Block boundaries are measured on the grid that is receiving the bytes: the open block's cursor if it has a grid,
    the global cursor below its scrollback otherwise. */
  lemma CurrentLineIsOnTheActiveGrid(em: Emulator, t: TermState)
    requires Blocks.Inv(t.store)
    ensures CurrentLine(em, t) ==
            match OpenGrid(t.store)
            case Some(g) => WrapI32(em(g.input).cursorLine)
            case None => WrapI32(em(Seen(t.global)).history + em(Seen(t.global)).cursorLine)
  {
    LastRunningIsOpen(t.store);
  }

  function ApplyEvent(em: Emulator, t: TermState, e: DcsEvent, now: nat): TermState {
    t.(store := Blocks.Apply(em, t.store, e, CurrentLine(em, t), now, t.cols, t.rows))
  }

  function ContentEnd(l: Located): nat {
    if l.start.Some? then l.start.value else l.end
  }

  /** The loop over the located events; `rest` is the input from offset `at` on. */
  function Walk(em: Emulator, t: TermState, rest: seq<byte>, at: nat, ls: seq<Located>, now: nat): Outcome
    decreases |ls|
  {
    if |ls| == 0 then Fed(Capture(Dispatch(em, t, rest), rest))
    else
      var end, content := ls[0].end, ContentEnd(ls[0]);
      if !(at <= end <= at + |rest|) || content > at + |rest| then Panicked
      else
        var sent := Dispatch(em, t, rest[..end - at]);
        var kept := if content > at then Capture(sent, rest[..content - at]) else sent;
        Walk(em, ApplyEvent(em, kept, ls[0].event, now), rest[end - at..], end, ls[1..], now)
  }

  lemma WalkOne(em: Emulator, t: TermState, bytes: seq<byte>, at: nat, ls: seq<Located>, j: nat, now: nat)
    requires j < |ls| && at <= |bytes|
    ensures var l := ls[j]; var content := ContentEnd(l);
            Walk(em, t, bytes[at..], at, ls[j..], now) ==
            if !(at <= l.end <= |bytes|) || content > |bytes| then Panicked
            else
              var sent := Dispatch(em, t, bytes[at..l.end]);
              var kept := if content > at then Capture(sent, bytes[at..content]) else sent;
              Walk(em, ApplyEvent(em, kept, l.event, now), bytes[l.end..], l.end, ls[j + 1..], now)
  {
    hide Dispatch, Capture, ApplyEvent;
    var l, rest, content := ls[j], bytes[at..], ContentEnd(ls[j]);
    assert ls[j..][1..] == ls[j + 1..];
    if at <= l.end <= |bytes| {
      assert rest[..l.end - at] == bytes[at..l.end] && rest[l.end - at..] == bytes[l.end..];
      if at < content <= |bytes| { assert rest[..content - at] == bytes[at..content]; }
    }
  }

  /** What is captured before an event, and the state behind it. */
  function Round(em: Emulator, t: TermState, rest: seq<byte>, at: nat, l: Located, now: nat): TermState
    requires at <= l.end <= at + |rest| && ContentEnd(l) <= at + |rest|
  {
    var sent := Dispatch(em, t, rest[..l.end - at]);
    ApplyEvent(em, if ContentEnd(l) > at then Capture(sent, rest[..ContentEnd(l) - at]) else sent, l.event, now)
  }

  lemma RoundIs(em: Emulator, t: TermState, rest: seq<byte>, at: nat, l: Located, now: nat)
    requires at <= l.end <= at + |rest| && ContentEnd(l) <= at + |rest|
    ensures var sent := Dispatch(em, t, rest[..l.end - at]);
            var kept := if ContentEnd(l) > at then Capture(sent, rest[..ContentEnd(l) - at]) else sent;
            Round(em, t, rest, at, l, now) == ApplyEvent(em, kept, l.event, now)
  {
  }

  lemma WalkStep(em: Emulator, t: TermState, rest: seq<byte>, at: nat, l: Located, ls: seq<Located>, now: nat)
    requires Walk(em, t, rest, at, [l] + ls, now).Fed?
    ensures at <= l.end <= at + |rest| && ContentEnd(l) <= at + |rest|
    ensures Walk(em, t, rest, at, [l] + ls, now) ==
            Walk(em, Round(em, t, rest, at, l, now), rest[l.end - at..], l.end, ls, now)
  {
    hide Dispatch, Capture, ApplyEvent, ContentEnd;
    assert ([l] + ls)[1..] == ls;
  }

  lemma WalkNone(em: Emulator, t: TermState, rest: seq<byte>, at: nat, now: nat)
    ensures Walk(em, t, rest, at, [], now) == Fed(Capture(Dispatch(em, t, rest), rest))
  {
  }

  lemma DispatchNone(em: Emulator, t: TermState)
    ensures Dispatch(em, t, []) == t
  {
  }

  lemma CaptureNone(t: TermState)
    requires Blocks.Inv(t.store)
    ensures Capture(t, []) == t
  {
    Blocks.CaptureNothing(t.store);
  }

  lemma ApplyEventIs(em: Emulator, t: TermState, e: DcsEvent, now: nat)
    ensures ApplyEvent(em, t, e, now) ==
            t.(store := Blocks.Apply(em, t.store, e, CurrentLine(em, t), now, t.cols, t.rows))
  {
  }

  function Feed(em: Emulator, t: TermState, bytes: seq<byte>, now: nat): Outcome {
    var k := Tracker(t.core, None, t.frameStart);
    var after := TrackAll(k, bytes, 0);
    Walk(em, t.(core := after.core, frameStart := after.frameStart, queue := t.queue + Events(t.core, bytes)),
         bytes, 0, Locate(k, bytes, 0), now)
  }

  function Resize(t: TermState, cols: nat, rows: nat): TermState {
    t.(global := t.global + [Tagged(Resized(cols, rows), false)],
       store := t.store.(blocks := Blocks.ResizeAll(t.store.blocks, cols, rows)), cols := cols, rows := rows)
  }

  function ResetBlocks(t: TermState): TermState {
    t.(store := Blocks.Clear(t.store))
  }

  // ---- when the feed completes ----

  /** Ends advance within the input and no content slice leaves it. */
  predicate InRange(ls: seq<Located>, at: nat, limit: nat)
    decreases |ls|
  {
    |ls| == 0 || (at < ls[0].end <= limit && ContentEnd(ls[0]) <= limit && InRange(ls[1..], ls[0].end, limit))
  }

  lemma {:induction false} WalkCompletes(em: Emulator, t: TermState, rest: seq<byte>, at: nat, ls: seq<Located>,
                                         now: nat)
    requires InRange(ls, at, at + |rest|)
    ensures Walk(em, t, rest, at, ls, now).Fed?
    decreases |ls|
  {
    hide Dispatch, Capture, ApplyEvent;
    if |ls| > 0 {
      var end, content := ls[0].end, ContentEnd(ls[0]);
      var sent := Dispatch(em, t, rest[..end - at]);
      var kept := if content > at then Capture(sent, rest[..content - at]) else sent;
      WalkCompletes(em, ApplyEvent(em, kept, ls[0].event, now), rest[end - at..], end, ls[1..], now);
    }
  }

  /** The frame being collected ends inside `bs` and is a valid event. */
  predicate Completes(c: Core, bs: seq<byte>)
    decreases |bs|
  {
    |bs| > 0 && c.isOurs && (Emit(c, bs[0]).Some? || Completes(Step(c, bs[0]), bs[1..]))
  }

  predicate StaleBeyond(k: Tracker, limit: nat) {
    k.core.isOurs && k.frameStart.Some? && k.frameStart.value > limit
  }

  /** After one byte the offsets recorded so far lie behind the cursor, or were stale before. */
  lemma TrackIsSane(k: Tracker, b: byte, at: nat, limit: nat)
    requires Sane(k.core) && (k.lastEsc.Some? ==> k.lastEsc.value < at) && at < limit
    ensures var n := Track(k, b, at);
            && Sane(n.core) && (n.lastEsc.Some? ==> n.lastEsc.value < at + 1)
            && (StaleBeyond(n, limit) ==> StaleBeyond(k, limit) && Emit(k.core, b).None?)
            && (Emit(k.core, b).Some? ==> k.core.isOurs && !n.core.isOurs && StartAt(k, b, at) == k.frameStart)
            && (k.core.isOurs && n.core.isOurs ==> n.frameStart == k.frameStart)
  {
    hide ParseBody;
  }

  lemma {:induction false} FirstEndIsAhead(k: Tracker, rest: seq<byte>, at: nat)
    ensures |Locate(k, rest, at)| > 0 ==> at < Locate(k, rest, at)[0].end <= at + |rest|
    decreases |rest|
  {
    if |rest| > 0 {
      hide Track, Emit, StartAt;
      FirstEndIsAhead(Track(k, rest[0], at), rest[1..], at + 1);
    }
  }

  lemma Lower(ls: seq<Located>, low: nat, at: nat, limit: nat)
    requires low <= at && (|ls| > 0 ==> at < ls[0].end)
    ensures InRange(ls, low, limit) == InRange(ls, at, limit)
  {
  }

  lemma LocateOne(k: Tracker, rest: seq<byte>, at: nat)
    requires |rest| > 0
    ensures Locate(k, rest, at) ==
            (if Emit(k.core, rest[0]).Some?
             then [Located(StartAt(k, rest[0], at), EndAt(rest, at), Emit(k.core, rest[0]).value)] else [])
            + Locate(Track(k, rest[0], at), rest[1..], at + 1)
    ensures Track(k, rest[0], at).core == Step(k.core, rest[0])
  {
    hide Emit, StartAt, Step;
  }

  /** The tracker right after an event, past the backslash if the terminator has one. */
  lemma AfterEvent(k: Tracker, rest: seq<byte>, at: nat) returns (n: Tracker)
    requires Sane(k.core) && |rest| > 0 && Emit(k.core, rest[0]).Some?
    requires k.lastEsc.Some? ==> k.lastEsc.value < at
    ensures var end := EndAt(rest, at);
            && Locate(Track(k, rest[0], at), rest[1..], at + 1) == Locate(n, rest[end - at..], end)
            && n == TrackAll(k, rest[..end - at], at)
            && Sane(n.core) && !n.core.isOurs && (n.lastEsc.Some? ==> n.lastEsc.value < end)
  {
    hide ParseBody;
    var b := rest[0];
    n := Track(k, b, at);
    StepIsSane(k.core, b);
    assert !n.core.isOurs;
    assert rest[..1][1..] == [];
    if EndAt(rest, at) == at + 2 {
      assert rest[1..][0] == BACKSLASH && rest[1..][1..] == rest[2..];
      assert rest[..2][1..] == [BACKSLASH] && [BACKSLASH][1..] == [];
      BackslashAfterEvent(k, n, at);
      LocateOne(n, rest[1..], at + 1);
      assert TrackAll(k, rest[..2], at) == TrackAll(n, [BACKSLASH], at + 1) == Track(n, BACKSLASH, at + 1);
      n := Track(n, BACKSLASH, at + 1);
    } else {
      assert TrackAll(k, rest[..1], at) == n;
    }
  }

  /** Every slice is in range unless the call begins inside one of our frames, recorded at an offset beyond this
    call's input, and that frame completes here. */
  lemma {:induction false} LocatedInRange(k: Tracker, rest: seq<byte>, at: nat, limit: nat)
    requires Sane(k.core) && (k.lastEsc.Some? ==> k.lastEsc.value < at) && limit == at + |rest|
    ensures InRange(Locate(k, rest, at), at, limit) <==> !(StaleBeyond(k, limit) && Completes(k.core, rest))
    decreases |rest|
  {
    if |rest| > 0 {
      var b := rest[0];
      TrackIsSane(k, b, at, limit);
      LocateOne(k, rest, at);
      if Emit(k.core, b).Some? {
        var end := EndAt(rest, at);
        var n := AfterEvent(k, rest, at);
        LocatedInRange(n, rest[end - at..], end, limit);
        var l := Located(StartAt(k, b, at), end, Emit(k.core, b).value);
        var tail := Locate(n, rest[end - at..], end);
        hide Locate, Track, StartAt, Emit, Step, Sane;
        assert Locate(k, rest, at) == [l] + tail;
        assert ([l] + tail)[1..] == tail;
      } else {
        var n := Track(k, b, at);
        LocatedInRange(n, rest[1..], at + 1, limit);
        FirstEndIsAhead(n, rest[1..], at + 1);
        hide Locate, Track, StartAt, Emit, Sane;
        assert Locate(k, rest, at) == Locate(n, rest[1..], at + 1);
        Lower(Locate(n, rest[1..], at + 1), at, at + 1, limit);
      }
    }
  }

  /** EXACT CRASH CONDITION. A feed stops on an out-of-range slice exactly when it begins inside one of our frames
    whose recorded start, an offset into an EARLIER call, exceeds this call's length, and the frame completes here. */
  lemma FeedPanicsExactlyWhen(em: Emulator, t: TermState, bytes: seq<byte>, now: nat)
    requires Sane(t.core)
    ensures Feed(em, t, bytes, now).Panicked? <==>
            && t.core.isOurs && t.frameStart.Some? && t.frameStart.value > |bytes|
            && Completes(t.core, bytes)
  {
    hide InRange, Locate, TrackAll, Sane, Completes, StaleBeyond, Feed, Walk;
    var k := Tracker(t.core, None, t.frameStart);
    var ls := Locate(k, bytes, 0);
    var t1 := FeedIs(em, t, bytes, now);
    LocatedInRange(k, bytes, 0, |bytes|);
    BeyondIs(k, |bytes|);
    if InRange(ls, 0, |bytes|) {
      WalkCompletes(em, t1, bytes, 0, ls, now);
    } else {
      StaleComesFirst(k, bytes, 0);
      WalkStops(em, t1, bytes, 0, ls, now);
    }
  }

  lemma FeedIs(em: Emulator, t: TermState, bytes: seq<byte>, now: nat) returns (t1: TermState)
    ensures Feed(em, t, bytes, now) ==
            Walk(em, t1, bytes, 0, Locate(Tracker(t.core, None, t.frameStart), bytes, 0), now)
    ensures t1 == t.(core := Run(t.core, bytes), queue := t.queue + Events(t.core, bytes),
                     frameStart := TrackAll(Tracker(t.core, None, t.frameStart), bytes, 0).frameStart)
  {
    hide Walk, Locate;
    var after := TrackAll(Tracker(t.core, None, t.frameStart), bytes, 0);
    TrackingRuns(Tracker(t.core, None, t.frameStart), bytes, 0);
    t1 := t.(core := after.core, frameStart := after.frameStart, queue := t.queue + Events(t.core, bytes));
  }

  lemma WalkStops(em: Emulator, t: TermState, rest: seq<byte>, at: nat, ls: seq<Located>, now: nat)
    requires |ls| > 0 && ContentEnd(ls[0]) > at + |rest|
    ensures Walk(em, t, rest, at, ls, now).Panicked?
  {
  }

  lemma BeyondIs(k: Tracker, limit: nat)
    ensures StaleBeyond(k, limit) <==> k.core.isOurs && k.frameStart.Some? && k.frameStart.value > limit
  {
  }

  lemma {:induction false} StaleComesFirst(k: Tracker, rest: seq<byte>, at: nat)
    requires Sane(k.core) && Completes(k.core, rest)
    ensures |Locate(k, rest, at)| > 0 && Locate(k, rest, at)[0].start == k.frameStart
    decreases |rest|
  {
    var b := rest[0];
    LocateOne(k, rest, at);
    if Emit(k.core, b).None? {
      StepIsSane(k.core, b);
      StaleComesFirst(Track(k, b, at), rest[1..], at + 1);
    }
  }
}
