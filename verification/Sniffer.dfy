/** The stateful sniffer: recovers shell events from a byte stream that arrives in arbitrary pieces. */
module Sniffer {
  import opened Bytes
  import opened Vte
  import opened Wire

  /** What the sniffer remembers between bytes. */
  datatype Core = Core(parser: Parser, isOurs: bool, buf: seq<byte>)

  const DCS_INTERMEDIATE: byte := 0x24
  const DCS_FINAL: byte := 0x64

  const START := Core(INITIAL, false, [])

  /** A frame is being collected only inside a device control string. */
  predicate Sane(c: Core) {
    c.isOurs ==> c.parser.state == DcsPassthrough
  }

  function Step(c: Core, b: byte): Core {
    var next := Next(c.parser, b);
    match Call(c.parser, b)
    case Silent => c.(parser := next)
    case Hook(action) => Core(next, action == DCS_FINAL && c.parser.intermediates == [DCS_INTERMEDIATE], [])
    case Put => Core(next, c.isOurs, if c.isOurs then c.buf + [b] else c.buf)
    case Unhook => Core(next, false, c.buf)
  }

  /** The event completed by consuming `b`, if any. */
  function Emit(c: Core, b: byte): Option<DcsEvent> {
    if c.isOurs && Call(c.parser, b).Unhook? then ParseBody(c.buf) else None
  }

  function One<T>(x: Option<T>): seq<T> {
    if x.Some? then [x.value] else []
  }

  function Run(c: Core, bs: seq<byte>): Core
    decreases |bs|
  {
    if |bs| == 0 then c else Run(Step(c, bs[0]), bs[1..])
  }

  function Events(c: Core, bs: seq<byte>): seq<DcsEvent>
    decreases |bs|
  {
    if |bs| == 0 then [] else One(Emit(c, bs[0])) + Events(Step(c, bs[0]), bs[1..])
  }

  lemma StepIsSane(c: Core, b: byte)
    requires Sane(c)
    ensures Sane(Step(c, b))
  {
  }

  lemma {:induction false} RunIsSane(c: Core, bs: seq<byte>)
    requires Sane(c)
    ensures Sane(Run(c, bs))
    decreases |bs|
  {
    if |bs| > 0 {
      StepIsSane(c, bs[0]);
      RunIsSane(Step(c, bs[0]), bs[1..]);
    }
  }

  /** HOMOMORPHISM. Feeding `a` then `b` leaves the same parser, ownership flag, buffer and events as feeding `a + b`,
    for all bytes and from every state. */
  lemma {:induction false} FeedingConcatenates(c: Core, a: seq<byte>, b: seq<byte>)
    ensures Run(c, a + b) == Run(Run(c, a), b)
    ensures Events(c, a + b) == Events(c, a) + Events(Run(c, a), b)
    decreases |a|
  {
    hide Step, Emit;
    if |a| == 0 {
      assert a + b == b;
    } else {
      assert (a + b)[1..] == a[1..] + b;
      FeedingConcatenates(Step(c, a[0]), a[1..], b);
    }
  }

  function Flatten<T>(chunks: seq<seq<T>>): seq<T> {
    if |chunks| == 0 then [] else chunks[0] + Flatten(chunks[1..])
  }

  function RunChunks(c: Core, chunks: seq<seq<byte>>): Core
    decreases |chunks|
  {
    if |chunks| == 0 then c else RunChunks(Run(c, chunks[0]), chunks[1..])
  }

  function ChunkEvents(c: Core, chunks: seq<seq<byte>>): seq<DcsEvent>
    decreases |chunks|
  {
    if |chunks| == 0 then [] else Events(c, chunks[0]) + ChunkEvents(Run(c, chunks[0]), chunks[1..])
  }

  /** Cutting the stream anywhere changes neither the events nor the state. */
  lemma {:induction false} CutsAreInvisible(c: Core, chunks: seq<seq<byte>>)
    ensures RunChunks(c, chunks) == Run(c, Flatten(chunks))
    ensures ChunkEvents(c, chunks) == Events(c, Flatten(chunks))
    decreases |chunks|
  {
    if |chunks| > 0 {
      CutsAreInvisible(Run(c, chunks[0]), chunks[1..]);
      FeedingConcatenates(c, chunks[0], Flatten(chunks[1..]));
    }
  }

  // ---- positions ----

  datatype Located = Located(start: Option<nat>, end: nat, event: DcsEvent)

  /** The sniffer in the middle of one call: the latest ESC of this call, and the recorded frame start. */
  datatype Tracker = Tracker(core: Core, lastEsc: Option<nat>, frameStart: Option<nat>)

  function EscAt(k: Tracker, b: byte, at: nat): Option<nat> {
    if b == ESC then Some(at) else k.lastEsc
  }

  predicate Claims(c: Core, b: byte) {
    !c.isOurs && Step(c, b).isOurs
  }

  function StartAt(k: Tracker, b: byte, at: nat): Option<nat> {
    if Claims(k.core, b) then EscAt(k, b, at) else k.frameStart
  }

  function Track(k: Tracker, b: byte, at: nat): Tracker {
    Tracker(Step(k.core, b),
            if Claims(k.core, b) then None else EscAt(k, b, at),
            if Emit(k.core, b).Some? then None else StartAt(k, b, at))
  }

  /** One past the terminator: a backslash right behind an ESC belongs to it. */
  function EndAt(bs: seq<byte>, at: nat): (r: nat)
    requires |bs| > 0
    ensures at < r <= at + |bs|
  {
    if bs[0] == ESC && |bs| > 1 && bs[1] == BACKSLASH then at + 2 else at + 1
  }

  function TrackAll(k: Tracker, bs: seq<byte>, at: nat): Tracker
    decreases |bs|
  {
    if |bs| == 0 then k else TrackAll(Track(k, bs[0], at), bs[1..], at + 1)
  }

  /** The events completed by `bs`, whose first byte sits at offset `at` of the call, with their positions. */
  function Locate(k: Tracker, bs: seq<byte>, at: nat): seq<Located>
    decreases |bs|
  {
    if |bs| == 0 then []
    else
      var found := Emit(k.core, bs[0]);
      var rest := Locate(Track(k, bs[0], at), bs[1..], at + 1);
      if found.Some? then [Located(StartAt(k, bs[0], at), EndAt(bs, at), found.value)] + rest else rest
  }

  function EventOf(ls: seq<Located>): seq<DcsEvent> {
    if |ls| == 0 then [] else [ls[0].event] + EventOf(ls[1..])
  }

  /** The positioned feed reports exactly the events of the plain feed. */
  lemma {:induction false} LocatedEventsAreTheEvents(k: Tracker, bs: seq<byte>, at: nat)
    ensures EventOf(Locate(k, bs, at)) == Events(k.core, bs)
    decreases |bs|
  {
    if |bs| > 0 {
      LocatedEventsAreTheEvents(Track(k, bs[0], at), bs[1..], at + 1);
      var found, rest := Emit(k.core, bs[0]), Locate(Track(k, bs[0], at), bs[1..], at + 1);
      if found.Some? {
        assert Locate(k, bs, at)[1..] == rest;
      }
    }
  }

  /** Consuming the backslash of a 7-bit terminator ahead of time is the ordinary step. */
  lemma BackslashAfterEvent(k: Tracker, next: Tracker, at: nat)
    requires Emit(k.core, ESC).Some? && next == Track(k, ESC, at) && Sane(k.core)
    ensures Emit(next.core, BACKSLASH) == None
    ensures Track(next, BACKSLASH, at + 1) == Tracker(Step(next.core, BACKSLASH), next.lastEsc, next.frameStart)
    ensures Step(next.core, BACKSLASH).parser.state == Ground && !Step(next.core, BACKSLASH).isOurs
    ensures Sane(Step(next.core, BACKSLASH))
  {
  }

  lemma TrackIs(k: Tracker, b: byte, at: nat)
    ensures Track(k, b, at) ==
            Tracker(Step(k.core, b),
                    if !k.core.isOurs && Step(k.core, b).isOurs then None else EscAt(k, b, at),
                    if Emit(k.core, b).Some? then None else StartAt(k, b, at))
    ensures StartAt(k, b, at) ==
            if !k.core.isOurs && Step(k.core, b).isOurs then EscAt(k, b, at) else k.frameStart
  {
  }

  lemma {:induction false} TrackingRuns(k: Tracker, bs: seq<byte>, at: nat)
    ensures TrackAll(k, bs, at).core == Run(k.core, bs)
    decreases |bs|
  {
    if |bs| > 0 {
      TrackingRuns(Track(k, bs[0], at), bs[1..], at + 1);
    }
  }

  lemma FeedNothing(k: Tracker, at: nat)
    ensures Run(k.core, []) == k.core && Events(k.core, []) == [] && Locate(k, [], at) == [] && TrackAll(k, [], at) == k
  {
  }

  lemma Associate<T>(a: seq<T>, b: seq<T>, c: seq<T>)
    ensures (a + b) + c == a + (b + c)
  {
  }

  lemma UnfoldRun(c: Core, bytes: seq<byte>, i: nat)
    requires i < |bytes|
    ensures Run(c, bytes[i..]) == Run(Step(c, bytes[i]), bytes[i + 1..])
    ensures Events(c, bytes[i..]) == One(Emit(c, bytes[i])) + Events(Step(c, bytes[i]), bytes[i + 1..])
  {
    assert bytes[i..][1..] == bytes[i + 1..];
  }

  lemma Unfold(k: Tracker, bytes: seq<byte>, i: nat)
    requires i < |bytes|
    ensures var rest, next := bytes[i + 1..], Track(k, bytes[i], i);
            && Locate(k, bytes[i..], i) ==
               (if Emit(k.core, bytes[i]).Some?
                then [Located(StartAt(k, bytes[i], i), EndAt(bytes[i..], i), Emit(k.core, bytes[i]).value)]
                     + Locate(next, rest, i + 1)
                else Locate(next, rest, i + 1))
            && TrackAll(k, bytes[i..], i) == TrackAll(next, rest, i + 1)
            && Run(k.core, bytes[i..]) == Run(Step(k.core, bytes[i]), rest)
            && Events(k.core, bytes[i..]) == One(Emit(k.core, bytes[i])) + Events(Step(k.core, bytes[i]), rest)
  {
    assert bytes[i..][1..] == bytes[i + 1..];
  }

  /** How far a positioned feed of `bytes` from `k0` has come: `rest`, which begins at offset `i`, is still ahead. */
  ghost predicate Follows(k: Tracker, located: seq<Located>, queue: seq<DcsEvent>, rest: seq<byte>, i: nat, k0: Tracker,
                          bytes: seq<byte>, all: seq<DcsEvent>)
  {
    && located + Locate(k, rest, i) == Locate(k0, bytes, 0)
    && TrackAll(k, rest, i) == TrackAll(k0, bytes, 0)
    && Run(k.core, rest) == Run(k0.core, bytes)
    && queue + Events(k.core, rest) == all
  }

  lemma FollowsAtFirst(k: Tracker, queue: seq<DcsEvent>, bytes: seq<byte>)
    ensures Follows(k, [], queue, bytes[0..], 0, k, bytes, queue + Events(k.core, bytes))
  {
    assert bytes[0..] == bytes && [] + Locate(k, bytes, 0) == Locate(k, bytes, 0);
  }

  lemma FollowsAtLast(k: Tracker, located: seq<Located>, queue: seq<DcsEvent>, i: nat, k0: Tracker, bytes: seq<byte>,
                      all: seq<DcsEvent>)
    requires Follows(k, located, queue, [], i, k0, bytes, all)
    ensures located == Locate(k0, bytes, 0) && k == TrackAll(k0, bytes, 0)
    ensures k.core == Run(k0.core, bytes) && queue == all
  {
    FeedNothing(k, i);
  }

  /** One byte further. */
  lemma FollowsOne(k: Tracker, located: seq<Located>, queue: seq<DcsEvent>, bytes: seq<byte>, i: nat, k0: Tracker,
                   all: seq<DcsEvent>)
    requires i < |bytes| && Follows(k, located, queue, bytes[i..], i, k0, bytes, all)
    ensures var b := bytes[i]; var found := Emit(k.core, b);
            var more := if found.Some? then [Located(StartAt(k, b, i), EndAt(bytes[i..], i), found.value)] else [];
            Follows(Track(k, b, i), located + more, queue + One(found), bytes[i + 1..], i + 1, k0, bytes, all)
  {
    hide Emit, StartAt, Track, Step, EndAt, Locate, TrackAll, Run, Events;
    Unfold(k, bytes, i);
    TrackIs(k, bytes[i], i);
    var next, found := Track(k, bytes[i], i), Emit(k.core, bytes[i]);
    var more := if found.Some? then [Located(StartAt(k, bytes[i], i), EndAt(bytes[i..], i), found.value)] else [];
    Associate(located, more, Locate(next, bytes[i + 1..], i + 1));
    assert [] + Locate(next, bytes[i + 1..], i + 1) == Locate(next, bytes[i + 1..], i + 1);
    Associate(queue, One(found), Events(next.core, bytes[i + 1..]));
  }

  class DcsSniffer {
    var parser: Parser
    var isOurs: bool
    var buf: seq<byte>
    var events: seq<DcsEvent>
    var frameStart: Option<nat>

    function CoreState(): Core
      reads this
    {
      Core(parser, isOurs, buf)
    }

    constructor ()
      ensures CoreState() == START && events == [] && frameStart == None
    {
      parser, isOurs, buf := INITIAL, false, [];
      events, frameStart := [], None;
    }

    method OnHook(action: byte)
      modifies this
      ensures isOurs == (action == DCS_FINAL && parser.intermediates == [DCS_INTERMEDIATE]) && buf == []
      ensures parser == old(parser) && events == old(events) && frameStart == old(frameStart)
    {
      isOurs := action == DCS_FINAL && parser.intermediates == [DCS_INTERMEDIATE];
      buf := [];
    }

    method OnPut(b: byte)
      modifies this
      ensures buf == if isOurs then old(buf) + [b] else old(buf)
      ensures parser == old(parser) && isOurs == old(isOurs) && events == old(events) && frameStart == old(frameStart)
    {
      if isOurs { buf := buf + [b]; }
    }

    method OnUnhook()
      modifies this
      ensures !isOurs && buf == old(buf) && parser == old(parser) && frameStart == old(frameStart)
      ensures events == old(events) + if old(isOurs) then One(ParseBody(old(buf))) else []
    {
      if !isOurs { return; }
      isOurs := false;
      var event := ParseFrameBody(buf);
      if event.Some? { events := events + [event.value]; }
    }

    /** Drive the parser over one byte and let it call back. */
    method Advance(b: byte)
      modifies this
      ensures CoreState() == Step(old(CoreState()), b)
      ensures events == old(events) + One(Emit(old(CoreState()), b))
      ensures frameStart == old(frameStart)
    {
      hide Next, ParseBody;
      var call := Call(parser, b);
      match call {
        case Silent =>
        case Hook(action) => OnHook(action);
        case Put => OnPut(b);
        case Unhook => OnUnhook();
      }
      parser := Next(parser, b);
    }

    method Feed(bytes: seq<byte>)
      modifies this
      ensures CoreState() == Run(old(CoreState()), bytes)
      ensures events == old(events) + Events(old(CoreState()), bytes)
      ensures frameStart == old(frameStart)
    {
      hide Step, Emit, Run, Events;
      var i := 0;
      assert bytes[0..] == bytes;
      while i < |bytes|
        invariant 0 <= i <= |bytes|
        invariant Run(CoreState(), bytes[i..]) == Run(old(CoreState()), bytes)
        invariant events + Events(CoreState(), bytes[i..]) == old(events) + Events(old(CoreState()), bytes)
        invariant frameStart == old(frameStart)
      {
        UnfoldRun(CoreState(), bytes, i);
        Associate(events, One(Emit(CoreState(), bytes[i])), Events(Step(CoreState(), bytes[i]), bytes[i + 1..]));
        Advance(bytes[i]);
        i := i + 1;
      }
      assert bytes[i..] == [];
      FeedNothing(Tracker(CoreState(), None, frameStart), i);
    }

    method FeedWithPositions(bytes: seq<byte>) returns (located: seq<Located>)
      requires Sane(CoreState())
      modifies this
      ensures Sane(CoreState())
      ensures CoreState() == Run(old(CoreState()), bytes)
      ensures events == old(events) + Events(old(CoreState()), bytes)
      ensures located == Locate(Tracker(old(CoreState()), None, old(frameStart)), bytes, 0)
      ensures frameStart == TrackAll(Tracker(old(CoreState()), None, old(frameStart)), bytes, 0).frameStart
    {
      hide Step, Emit, Claims, Track, StartAt, Locate, TrackAll, Events, Run, Follows;
      located := [];
      var i := 0;
      var lastEsc: Option<nat> := None;
      ghost var k0 := Tracker(CoreState(), None, frameStart);
      ghost var all := events + Events(CoreState(), bytes);
      FollowsAtFirst(k0, events, bytes);
      while i < |bytes|
        invariant 0 <= i <= |bytes|
        invariant Sane(CoreState())
        invariant Follows(Tracker(CoreState(), lastEsc, frameStart), located, events, bytes[i..], i, k0, bytes, all)
      {
        var b := bytes[i];
        ghost var k := Tracker(CoreState(), lastEsc, frameStart);
        FollowsOne(k, located, events, bytes, i, k0, all);
        StepIsSane(k.core, b);
        TrackIs(k, b, i);
        if b == ESC { lastEsc := Some(i); }
        var wasOurs := isOurs;
        var before := |events|;
        Advance(b);
        if !wasOurs && isOurs {
          frameStart := lastEsc;
          lastEsc := None;
        }
        if |events| > before {
          var end := i + 1;
          var start := frameStart;
          frameStart := None;
          ghost var next := Tracker(CoreState(), lastEsc, frameStart);
          assert next == Track(k, b, i);
          located := located + [Located(start, EndAt(bytes[i..], i), events[before])];
          if b == ESC && i + 1 < |bytes| && bytes[i + 1] == BACKSLASH {
            FollowsOne(next, located, events, bytes, i + 1, k0, all);
            BackslashAfterEvent(k, next, i);
            Advance(BACKSLASH);
            assert located + [] == located;
            end := i + 2;
          }
          i := end;
        } else {
          assert Tracker(CoreState(), lastEsc, frameStart) == Track(k, b, i);
          assert located + [] == located && events + [] == events;
          i := i + 1;
        }
      }
      assert bytes[i..] == [];
      FollowsAtLast(Tracker(CoreState(), lastEsc, frameStart), located, events, i, k0, bytes, all);
    }
  }
}
