/** What a frame that spans calls leaves in the captured output, and exactly when it does. */
module Leaks {
  import opened Bytes
  import opened Vte
  import opened Wire
  import opened Sniffer
  import opened Grid
  import opened Stream
  import opened Routing
  import opened TerminalModel
  import opened Refinement
  import opened Capturing
  import opened Runs
  import opened Session
  import opened Hazards
  import Blocks
  import WirePrinter

  // ---- counting bytes ----

  /** Bytes that earlier calls brought of the frame whose event this call completes first. */
  function Early(c: Clock, bytes: seq<byte>): nat {
    var p := FirstEvent(c.core, bytes);
    var length := TickAll(c, bytes[..p]).frameLength;
    if length > p then length - p else 0
  }

  /** The running block's output without the last `early` bytes since the latest event. */
  function FrameFree(l: Ledger, early: nat): seq<byte> {
    if HasGrid(l) then
      var o := LastEntry(l).output;
      o[..|o| - Min(early, Min(l.recent, |o|))]
    else []
  }

  /** What a run keeps of the reference's counters: bytes since the latest event are output of a block with a grid,
    and a frame being collected began behind that event. */
  predicate Counted(s: Spec) {
    && Aware(s.clock)
    && (HasGrid(s.ledger) ==> s.ledger.recent <= |LastEntry(s.ledger).output|)
    && (s.pending.Some? ==> !s.clock.core.isOurs && s.clock.core.parser.state == Escape)
    && (s.clock.core.isOurs ==> s.ledger.recent > 0)
  }

  lemma NewIsCounted(cols: nat, rows: nat)
    ensures Counted(NewSpec(cols, rows))
  {
  }

  lemma FlushIsCounted(s: Spec)
    requires Counted(s)
    ensures Counted(Flush(s))
  {
    hide Aware;
  }

  lemma DeliveryIsCounted(l: Ledger, bytes: seq<byte>)
    requires HasGrid(l) ==> l.recent <= |LastEntry(l).output|
    ensures var r := Deliver(l, bytes);
            r.recent == l.recent + |bytes| && (HasGrid(r) ==> r.recent <= |LastEntry(r).output|)
  {
    hide Typed;
  }

  lemma EffectIsCounted(l: Ledger, e: DcsEvent, n: nat)
    ensures Effect(l, e, n).recent == 0
  {
  }

  lemma EventEndsFrame(c: Core, b: byte)
    requires Sane(c)
    ensures Emit(c, b).Some? ==> !Step(c, b).isOurs && (b == ESC ==> Step(c, b).parser.state == Escape)
  {
    hide ParseBody;
  }

  lemma BackslashClaimsNothing(c: Core)
    requires Sane(c) && !c.isOurs
    ensures !Step(c, BACKSLASH).isOurs
  {
  }

  lemma AwareIsSane(c: Clock)
    requires Aware(c)
    ensures Sane(c.core)
  {
  }

  lemma StepIsCounted(s: Spec, b: byte)
    requires Counted(s)
    ensures Counted(SpecStep(s, b))
  {
    AwareStep(s.clock, b);
    AwareIsSane(s.clock);
    EventEndsFrame(s.clock.core, b);
    FlushIsCounted(s);
    StepRunsCore(s, b);
    hide Aware, Effect, Deliver, Step, Emit, Claims, Sane, HasGrid;
    if s.pending.Some? && b == BACKSLASH {
      BackslashClaimsNothing(s.clock.core);
      EffectIsCounted(Deliver(s.ledger, [b]), s.pending.value.event, s.pending.value.frameLength + 1);
    } else {
      var f := Flush(s);
      DeliveryIsCounted(f.ledger, [b]);
      if Emit(s.clock.core, b).Some? {
        EffectIsCounted(Deliver(f.ledger, [b]), Emit(s.clock.core, b).value, s.clock.frameLength + 1);
      }
    }
  }

  lemma {:induction false} RunIsCounted(s: Spec, bs: seq<byte>)
    requires Counted(s)
    ensures Counted(SpecRun(s, bs))
    decreases |bs|
  {
    if |bs| > 0 {
      StepIsCounted(s, bs[0]);
      hide Counted, SpecStep;
      RunIsCounted(SpecStep(s, bs[0]), bs[1..]);
    }
  }

  /** No condition on the cuts. */
  lemma {:induction false} RunsAreCounted(s: Spec, calls: seq<Call>)
    requires Counted(s)
    ensures Counted(SpecDoAll(s, calls)) && Counted(SpecByCalls(s, calls))
    decreases |calls|
  {
    if |calls| > 0 {
      FlushIsCounted(s);
      CallIsCounted(s, calls[0]);
      CallIsCounted(Flush(s), calls[0]);
      hide Counted, SpecDo, Flush;
      RunsAreCounted(SpecDo(s, calls[0]), calls[1..]);
      RunsAreCounted(SpecDo(Flush(s), calls[0]), calls[1..]);
    }
  }

  lemma CallIsCounted(s: Spec, call: Call)
    requires Counted(s)
    ensures Counted(SpecDo(s, call))
  {
    FlushIsCounted(s);
    hide SpecRun, Aware, Flush;
    match call
    case Feed(bytes, _) => RunIsCounted(s, bytes);
    case Resize(cols, rows) =>
    case Reset =>
  }

  /** No offset of this call is on record for a frame that began before it. */
  predicate Unrecorded(k: Tracker, c: Clock, at: nat) {
    && k.core == c.core
    && (k.lastEsc.Some? ==> 0 < c.sinceEsc <= at)
    && (k.core.isOurs && c.frameLength > at ==> k.frameStart == None)
  }

  lemma UnrecordedStep(k: Tracker, c: Clock, b: byte, at: nat)
    requires Unrecorded(k, c, at)
    ensures Unrecorded(Track(k, b, at), Tick(c, b), at + 1)
    ensures Emit(c.core, b).Some? && c.frameLength > at ==> StartAt(k, b, at) == None
  {
    hide ParseBody;
  }

  lemma {:induction false} UnrecordedRun(k: Tracker, c: Clock, bs: seq<byte>, at: nat)
    requires Unrecorded(k, c, at)
    ensures Unrecorded(TrackAll(k, bs, at), TickAll(c, bs), at + |bs|)
    decreases |bs|
  {
    hide Unrecorded, Track, Tick;
    if |bs| > 0 {
      UnrecordedStep(k, c, bs[0], at);
      UnrecordedRun(Track(k, bs[0], at), Tick(c, bs[0]), bs[1..], at + 1);
    }
  }

  /** The first event of a call, if its frame began earlier. */
  lemma SpanningCut(k: Tracker, s: Spec, bytes: seq<byte>, c: Cut)
    requires Counted(s) && k.core == s.clock.core && k.lastEsc == None
    requires FirstEvent(s.clock.core, bytes) < |bytes| && Early(s.clock, bytes) > 0
    requires var p := FirstEvent(s.clock.core, bytes);
             && c.end >= p && c.end > 0 && c.length == TickAll(s.clock, bytes[..p]).frameLength + (c.end - p)
             && c.located.start == StartAt(TrackAll(k, bytes[..p], 0), bytes[p], p) && c.located.end == c.end
    ensures c.length == Early(s.clock, bytes) + c.end && (s.ledger.recent > 0 || ContentEnd(c.located) > 0)
  {
    CountedIs(s);
    hide *;
    EarlyIs(s.clock, bytes);
    if !s.clock.core.isOurs {
      NothingRecorded(k, s.clock, bytes);
      NoStart(c.located);
    }
  }

  lemma NothingRecorded(k: Tracker, c: Clock, bytes: seq<byte>)
    requires Aware(c) && k.core == c.core && k.lastEsc == None && !c.core.isOurs
    requires FirstEvent(c.core, bytes) < |bytes| && Early(c, bytes) > 0
    ensures var p := FirstEvent(c.core, bytes); StartAt(TrackAll(k, bytes[..p], 0), bytes[p], p) == None
  {
    hide *;
    var p := FirstEvent(c.core, bytes);
    EarlyIs(c, bytes);
    AwareIsSane(c);
    BeginsUnrecorded(k, c);
    UnrecordedRun(k, c, bytes[..p], 0);
    QuietBefore(k, bytes, 0);
    var k1, c1 := TrackAll(k, bytes[..p], 0), TickAll(c, bytes[..p]);
    UnrecordedIs(k1, c1, p);
    UnrecordedStep(k1, c1, bytes[p], p);
  }

  lemma UnrecordedIs(k: Tracker, c: Clock, at: nat)
    requires Unrecorded(k, c, at)
    ensures k.core == c.core
  {
  }

  lemma NoStart(l: Located)
    ensures l.start == None ==> ContentEnd(l) == l.end
  {
  }

  lemma CountedIs(s: Spec)
    requires Counted(s)
    ensures Sane(s.clock.core) && Aware(s.clock) && (s.clock.core.isOurs ==> s.ledger.recent > 0)
    ensures HasGrid(s.ledger) ==> s.ledger.recent <= |LastEntry(s.ledger).output|
  {
  }

  lemma EarlyIs(c: Clock, bytes: seq<byte>)
    requires Early(c, bytes) > 0
    ensures var p := FirstEvent(c.core, bytes);
            p <= |bytes| && TickAll(c, bytes[..p]).frameLength == Early(c, bytes) + p
  {
  }

  lemma BeginsUnrecorded(k: Tracker, c: Clock)
    requires k.core == c.core && k.lastEsc == None && !c.core.isOurs
    ensures Unrecorded(k, c, 0)
  {
  }

  /** Outputs that differ in one block at most are both stored exactly when their cuts agree. */
  lemma KeptTogether(t: TermState, a: seq<seq<byte>>, b: seq<seq<byte>>, i: nat)
    requires KeptAs(t, a) && |a| == |b| && i < |a| && b == a[i := b[i]]
    ensures KeptAs(t, b) <==>
            Blocks.CutAfter(a[i], Blocks.MAX_BLOCK_OUTPUT_LINES) == Blocks.CutAfter(b[i], Blocks.MAX_BLOCK_OUTPUT_LINES)
  {
    hide Blocks.CutAfter, Blocks.Newlines;
    assert Blocks.CapturedFrom(t.store.blocks[i].output, t.store.blocks[i].outputLines, a[i]);
    assert KeptAs(t, b) ==> Blocks.CapturedFrom(t.store.blocks[i].output, t.store.blocks[i].outputLines, b[i]);
    assert forall j :: 0 <= j < |a| && j != i ==> a[j] == b[j];
  }

  lemma RetractedEarly(l: Ledger, seg: seq<byte>, early: nat)
    ensures var i, r := |l.entries| - 1, Retract(Deliver(l, seg), early + |seg|);
            Outputs(r) == if HasGrid(l) then Outputs(l)[i := FrameFree(l, early)] else Outputs(l)
  {
    hide Typed;
    if HasGrid(l) {
      var o := LastEntry(l).output;
      var n := |o| - Min(early, Min(l.recent, |o|));
      assert (o + seg)[..n] == o[..n];
    }
  }

  /** A segment that ends a frame begun earlier, with only `front` captured of it. */
  lemma SegmentLeaks(em: Emulator, t: TermState, l: Ledger, seg: seq<byte>, front: seq<byte>, early: nat)
    requires Same(em, t, l) && Kept(t, l) && |seg| > 0 && early > 0
    requires HasGrid(l) ==> l.recent <= |LastEntry(l).output|
    requires l.recent > 0 || |front| > 0
    ensures Kept(Capture(Dispatch(em, t, seg), front), Retract(Deliver(l, seg), early + |seg|)) <==>
            !HasGrid(l) || Blocks.Newlines(FrameFree(l, early)) >= Blocks.MAX_BLOCK_OUTPUT_LINES
  {
    hide *;
    var u, i := Capture(Dispatch(em, t, seg), front), |l.entries| - 1;
    CaptureKept(em, t, l, seg, front);
    RetractedEarly(l, seg, early);
    KeptIs(u, Retract(Deliver(l, seg), early + |seg|));
    ExtendedIs(l, front);
    if HasGrid(l) {
      var junk := FrameFreeIs(l, early);
      var free := FrameFree(l, early);
      assert (free + junk) + front == free + (junk + front);
      KeptTogether(u, Extended(l, front), Outputs(l)[i := free], i);
      Blocks.JunkShowsExactlyWhen(free, junk + front, Blocks.MAX_BLOCK_OUTPUT_LINES);
    }
  }

  lemma KeptIs(t: TermState, l: Ledger)
    ensures Kept(t, l) == KeptAs(t, Outputs(l))
  {
  }

  lemma ExtendedIs(l: Ledger, front: seq<byte>)
    ensures |Outputs(l)| == |l.entries|
    ensures HasGrid(l) ==>
              |l.entries| > 0 && Extended(l, front) == Outputs(l)[|l.entries| - 1 := LastEntry(l).output + front]
    ensures !HasGrid(l) ==> Extended(l, front) == Outputs(l)
  {
  }

  lemma FrameFreeIs(l: Ledger, early: nat) returns (junk: seq<byte>)
    requires HasGrid(l) && early > 0 && l.recent <= |LastEntry(l).output|
    ensures |l.entries| > 0 && LastEntry(l).output == FrameFree(l, early) + junk && (l.recent > 0 ==> |junk| > 0)
  {
    var o := LastEntry(l).output;
    junk := o[|FrameFree(l, early)|..];
  }

  /** An event leaves the output of every block that was there. */
  lemma EventKeepsOutputs(em: Emulator, t: TermState, l: Ledger, e: DcsEvent, now: nat)
    requires |t.store.blocks| == |l.entries| && Kept(ApplyEvent(em, t, e, now), Happen(l, e))
    ensures Kept(t, l)
  {
    var u, r := ApplyEvent(em, t, e, now), Happen(l, e);
    hide Blocks.CapturedFrom, CurrentLine, MarkNow, Frozen, UsedRows, Blocks.SealedEnd, Typed;
    assert |r.entries| >= |l.entries|
           && forall i :: 0 <= i < |l.entries| ==> r.entries[i].output == l.entries[i].output;
    forall i | 0 <= i < |l.entries|
      ensures Blocks.CapturedFrom(t.store.blocks[i].output, t.store.blocks[i].outputLines, l.entries[i].output)
    {
      assert Outputs(r)[i] == l.entries[i].output;
      assert u.store.blocks[i].output == t.store.blocks[i].output
             && u.store.blocks[i].outputLines == t.store.blocks[i].outputLines;
    }
  }

  /** Block `i` is not the open one. */
  predicate Past(s: Blocks.StoreState, i: nat) {
    i < |s.blocks| && s.openIndex != Some(i)
  }

  lemma StepsKeepPast(em: Emulator, t: TermState, bytes: seq<byte>, e: DcsEvent, now: nat, i: nat)
    requires Past(t.store, i)
    ensures Past(Dispatch(em, t, bytes).store, i) && Dispatch(em, t, bytes).store.blocks[i] == t.store.blocks[i]
    ensures Past(Capture(t, bytes).store, i) && Capture(t, bytes).store.blocks[i] == t.store.blocks[i]
    ensures Past(ApplyEvent(em, t, e, now).store, i) && ApplyEvent(em, t, e, now).store.blocks[i] == t.store.blocks[i]
  {
    hide CurrentLine, Frozen, UsedRows, Blocks.SealedEnd, Typed, Blocks.Captured, Blocks.Newlines;
  }

  lemma {:induction false} WalkKeepsPast(em: Emulator, t: TermState, rest: seq<byte>, at: nat, ls: seq<Located>,
                                         now: nat, i: nat)
    requires Past(t.store, i) && Walk(em, t, rest, at, ls, now).Fed?
    ensures var r := Walk(em, t, rest, at, ls, now).state; Past(r.store, i) && r.store.blocks[i] == t.store.blocks[i]
    decreases |ls|
  {
    hide Dispatch, Capture, ApplyEvent;
    if |ls| == 0 {
      StepsKeepPast(em, t, rest, CommandFinished(0), now, i);
      StepsKeepPast(em, Dispatch(em, t, rest), rest, CommandFinished(0), now, i);
    } else {
      var end, content, e := ls[0].end, ContentEnd(ls[0]), ls[0].event;
      var sent := Dispatch(em, t, rest[..end - at]);
      var kept := if content > at then Capture(sent, rest[..content - at]) else sent;
      StepsKeepPast(em, t, rest[..end - at], e, now, i);
      if content > at { StepsKeepPast(em, sent, rest[..content - at], e, now, i); }
      StepsKeepPast(em, kept, [], e, now, i);
      WalkKeepsPast(em, ApplyEvent(em, kept, e, now), rest[end - at..], end, ls[1..], now, i);
    }
  }

  lemma StepKeepsEntry(s: Spec, b: byte, i: nat)
    requires i < |s.ledger.entries| && !s.ledger.entries[i].running
    ensures var r := SpecStep(s, b).ledger; i < |r.entries| && r.entries[i] == s.ledger.entries[i]
  {
    EffectKeepsEntry(s.ledger, i);
    EffectKeepsEntry(Deliver(s.ledger, [b]), i);
    EffectKeepsEntry(Deliver(Flush(s).ledger, [b]), i);
    DeliverKeepsEntry(s.ledger, [b], i);
    DeliverKeepsEntry(Flush(s).ledger, [b], i);
    hide Effect, Deliver, Tick, Emit;
  }

  lemma DeliverKeepsEntry(l: Ledger, bytes: seq<byte>, i: nat)
    ensures i < |l.entries| && !l.entries[i].running ==>
              i < |Deliver(l, bytes).entries| && Deliver(l, bytes).entries[i] == l.entries[i]
  {
  }

  lemma EffectKeepsEntry(l: Ledger, i: nat)
    ensures forall e, n ::
              i < |l.entries| && !l.entries[i].running ==>
                i < |Effect(l, e, n).entries| && Effect(l, e, n).entries[i] == l.entries[i]
  {
    hide MarkNow;
  }

  lemma {:induction false} RunKeepsEntry(s: Spec, bs: seq<byte>, i: nat)
    requires i < |s.ledger.entries| && !s.ledger.entries[i].running
    ensures var r := Flush(SpecRun(s, bs)).ledger; i < |r.entries| && r.entries[i] == s.ledger.entries[i]
    decreases |bs|
  {
    if |bs| == 0 {
      EffectKeepsEntry(s.ledger, i);
      hide Effect;
    } else {
      StepKeepsEntry(s, bs[0], i);
      hide Flush, SpecStep;
      RunKeepsEntry(SpecStep(s, bs[0]), bs[1..], i);
    }
  }

  /** In the first round, capturing nothing is not capturing. */
  lemma FirstRoundIs(em: Emulator, t: TermState, bytes: seq<byte>, l: Located, now: nat)
    requires l.end <= |bytes| && ContentEnd(l) <= |bytes| && Blocks.Inv(Dispatch(em, t, bytes[..l.end]).store)
    ensures Round(em, t, bytes, 0, l, now) ==
            ApplyEvent(em, Capture(Dispatch(em, t, bytes[..l.end]), bytes[..ContentEnd(l)]), l.event, now)
  {
    hide *;
    RoundIs(em, t, bytes, 0, l, now);
    if ContentEnd(l) == 0 {
      CaptureNone(Dispatch(em, t, bytes[..l.end]));
      assert bytes[..0] == [];
    }
  }

  /** The first round keeps the routing, and the captured output exactly when the block has no room for the frame. */
  lemma FirstRoundLeaks(em: Emulator, t: TermState, l: Ledger, bytes: seq<byte>, at: Located, early: nat, now: nat)
    requires Same(em, t, l) && Kept(t, l) && 0 < at.end <= |bytes| && ContentEnd(at) <= |bytes| && early > 0
    requires HasGrid(l) ==> l.recent <= |LastEntry(l).output|
    requires l.recent > 0 || ContentEnd(at) > 0
    ensures var u := Round(em, t, bytes, 0, at, now);
            var r := Effect(Deliver(l, bytes[..at.end]), at.event, early + at.end);
            && Same(em, u, r) && r.recent == 0
            && (Kept(u, r) <==> !HasGrid(l) || Blocks.Newlines(FrameFree(l, early)) >= Blocks.MAX_BLOCK_OUTPUT_LINES)
    ensures var kept := Capture(Dispatch(em, t, bytes[..at.end]), bytes[..ContentEnd(at)]);
            var r := Retract(Deliver(l, bytes[..at.end]), early + at.end);
            && Same(em, kept, r)
            && (Kept(kept, r) <==> !HasGrid(l) || Blocks.Newlines(FrameFree(l, early)) >= Blocks.MAX_BLOCK_OUTPUT_LINES)
  {
    hide *;
    var seg, front, n := bytes[..at.end], bytes[..ContentEnd(at)], early + at.end;
    var sent, delivered := Dispatch(em, t, seg), Deliver(l, seg);
    DispatchRefines(em, t, l, seg);
    SameSize(em, sent, delivered);
    FirstRoundIs(em, t, bytes, at, now);
    SegmentLeaks(em, t, l, seg, front, early);
    CaptureIsUnseen(em, sent, delivered, front);
    var kept := Capture(sent, front);
    EffectRefines(em, kept, delivered, at.event, n, now);
    EffectIsCounted(delivered, at.event, n);
    if Kept(kept, Retract(delivered, n)) { EffectKept(em, kept, delivered, at.event, n, now); }
    RetractIsUnseen(em, kept, delivered, n);
    SameSize(em, kept, Retract(delivered, n));
    EffectIs(delivered, at.event, n);
    KeptUncounted(ApplyEvent(em, kept, at.event, now), Happen(Retract(delivered, n), at.event));
    if Kept(ApplyEvent(em, kept, at.event, now), Effect(delivered, at.event, n)) {
      EventKeepsOutputs(em, kept, Retract(delivered, n), at.event, now);
    }
  }

  lemma SameSize(em: Emulator, t: TermState, l: Ledger)
    requires Same(em, t, l)
    ensures |t.store.blocks| == |l.entries| && Blocks.Inv(t.store)
  {
    hide Blocks.Inv, SameOutside;
  }

  lemma EffectIs(l: Ledger, e: DcsEvent, n: nat)
    ensures Effect(l, e, n) == Happen(Retract(l, n), e).(recent := 0)
  {
    hide Happen, Retract;
  }

  lemma KeptUncounted(t: TermState, l: Ledger)
    ensures Kept(t, l.(recent := 0)) == Kept(t, l)
  {
    hide KeptAs;
    assert Outputs(l.(recent := 0)) == Outputs(l);
  }

  // ---- behind the first event ----

  lemma {:induction false} TicksConcatenate(c: Clock, a: seq<byte>, b: seq<byte>)
    ensures TickAll(c, a + b) == TickAll(TickAll(c, a), b)
    decreases |a|
  {
    hide Tick;
    if |a| == 0 {
      assert a + b == b;
    } else {
      assert (a + b)[1..] == a[1..] + b;
      TicksConcatenate(Tick(c, a[0]), a[1..], b);
    }
  }

  /** Nothing is in progress behind an event, except that its last ESC may open a new sequence. */
  lemma BegunBehindEvent(c: Clock, bs: seq<byte>)
    requires Aware(c) && |bs| > 0 && Emit(c.core, bs[0]).Some?
    ensures Begun(TickAll(c, bs[..EndAt(bs, 0)]), 1)
  {
    hide ParseBody;
    AwareRun(c, bs[..EndAt(bs, 0)]);
    var n := Tick(c, bs[0]);
    if EndAt(bs, 0) == 2 {
      assert bs[..2][1..] == [BACKSLASH] && [BACKSLASH][1..] == [];
      assert TickAll(c, bs[..2]) == TickAll(n, [BACKSLASH]) == TickAll(Tick(n, BACKSLASH), []);
    } else {
      assert bs[..1][1..] == [];
      assert TickAll(c, bs[..1]) == n;
    }
  }

  lemma BegunLater(c: Clock, at: nat, later: nat)
    requires Begun(c, at) && at <= later
    ensures Begun(c, later)
  {
  }

  lemma AfterFirst(k: Tracker, c: Clock, bytes: seq<byte>, p: nat, end: nat)
    requires Aware(c) && k.core == c.core && k.lastEsc == None && p == FirstEvent(k.core, bytes) < |bytes|
    requires end == p + EndAt(bytes[p..], 0)
    ensures end <= |bytes| && Linked(TrackAll(k, bytes[..end], 0), TickAll(c, bytes[..end]), end)
    ensures FramesInside(TickAll(c, bytes[..end]), bytes[end..], end)
  {
    hide *;
    var c1, tail := TickAll(c, bytes[..p]), bytes[p..];
    AwareIsSane(c);
    AwareRun(c, bytes[..p]);
    EndShifts(tail, 0);
    QuietBefore(k, bytes, 0);
    LinkedAtStart(k, c);
    LinkedRun(k, c, bytes[..p], 0);
    LinkedIsSane(TrackAll(k, bytes[..p], 0), c1, p);
    LinkedRun(k, c, bytes[..end], 0);
    BegunBehindEvent(c1, tail);
    TicksConcatenate(c, bytes[..p], tail[..end - p]);
    assert bytes[..p] + tail[..end - p] == bytes[..end];
    BegunLater(TickAll(c, bytes[..end]), 1, end);
    BegunFramesAreInside(TickAll(c, bytes[..end]), bytes[end..], end);
  }

  lemma LinkedAtStart(k: Tracker, c: Clock)
    requires Aware(c) && k.core == c.core && k.lastEsc == None
    ensures Linked(k, c, 0)
  {
  }

  /** A sealing event closes every block there was. */
  lemma SealingCloses(em: Emulator, t: TermState, l: Ledger, e: DcsEvent, now: nat)
    requires Same(em, t, l) && HasGrid(l) && !e.Preexec?
    ensures var u, r := ApplyEvent(em, t, e, now), Happen(l, e);
            && |l.entries| == |t.store.blocks| <= |u.store.blocks| && |l.entries| <= |r.entries|
            && forall j :: 0 <= j < |l.entries| ==>
                 && Past(u.store, j) && !r.entries[j].running && r.entries[j].output == l.entries[j].output
                 && u.store.blocks[j].output == t.store.blocks[j].output
                 && u.store.blocks[j].outputLines == t.store.blocks[j].outputLines
  {
    OpenMatches(em, t, l);
    SameSize(em, t, l);
    var n := |l.entries|;
    assert Blocks.BlockOk(t.store.blocks[n - 1], true);
    LastIs(l);
    hide Same, CurrentLine, MarkNow, Blocks.SealBlock, Blocks.Inv, HasGrid;
    SealingEvent(l, e);
    SealsOpen(em, t, e, now);
  }

  lemma LastIs(l: Ledger)
    requires HasGrid(l)
    ensures |l.entries| > 0 && l.entries[|l.entries| - 1].running
  {
  }

  lemma SealingEvent(l: Ledger, e: DcsEvent)
    requires |l.entries| > 0 && !e.Preexec? && forall j :: 0 <= j < |l.entries| - 1 ==> !l.entries[j].running
    ensures var r := Happen(l, e);
            && |l.entries| <= |r.entries|
            && forall j :: 0 <= j < |l.entries| ==>
                 !r.entries[j].running && r.entries[j].output == l.entries[j].output
  {
    hide MarkNow;
  }

  lemma SealsOpen(em: Emulator, t: TermState, e: DcsEvent, now: nat)
    requires !e.Preexec? && |t.store.blocks| > 0 && t.store.openIndex == Some(|t.store.blocks| - 1)
    requires t.store.blocks[|t.store.blocks| - 1].isRunning
    ensures var u, n := ApplyEvent(em, t, e, now), |t.store.blocks|;
            && n <= |u.store.blocks|
            && forall j :: 0 <= j < n ==>
                 && Past(u.store, j) && u.store.blocks[j].output == t.store.blocks[j].output
                 && u.store.blocks[j].outputLines == t.store.blocks[j].outputLines
  {
    hide CurrentLine, Frozen, UsedRows, Blocks.SealedEnd;
  }

  /** What a sealed block stored wrongly stays wrong. */
  lemma SealedRest(em: Emulator, t: TermState, l: Ledger, e: DcsEvent, s: Spec, rest: seq<byte>, at: nat,
                   ls: seq<Located>, now: nat)
    requires Same(em, t, l) && HasGrid(l) && !e.Preexec? && s.ledger == Happen(l, e).(recent := 0)
    requires Walk(em, ApplyEvent(em, t, e, now), rest, at, ls, now).Fed?
    requires Kept(Walk(em, ApplyEvent(em, t, e, now), rest, at, ls, now).state, Flush(SpecRun(s, rest)).ledger)
    ensures Kept(t, l)
  {
    SealingCloses(em, t, l, e, now);
    var u := ApplyEvent(em, t, e, now);
    var v, r := Walk(em, u, rest, at, ls, now).state, Flush(SpecRun(s, rest)).ledger;
    hide Same, ApplyEvent, Happen, Walk, SpecRun, Flush, Blocks.CapturedFrom, Past;
    forall j | 0 <= j < |l.entries|
      ensures Blocks.CapturedFrom(t.store.blocks[j].output, t.store.blocks[j].outputLines, Outputs(l)[j])
    {
      WalkKeepsPast(em, u, rest, at, ls, now, j);
      RunKeepsEntry(s, rest, j);
      PastIs(v.store, j);
      assert Outputs(r)[j] == l.entries[j].output;
    }
  }

  lemma PastIs(s: Blocks.StoreState, i: nat)
    requires Past(s, i)
    ensures i < |s.blocks|
  {
  }

  lemma HasGridStays(l: Ledger, bytes: seq<byte>, n: nat)
    ensures HasGrid(Retract(Deliver(l, bytes), n)) == HasGrid(l)
  {
    hide Typed;
  }

  predicate RoomIsSpent(l: Ledger, early: nat) {
    !HasGrid(l) || Blocks.Newlines(FrameFree(l, early)) >= Blocks.MAX_BLOCK_OUTPUT_LINES
  }

  /** The walk over a call whose first event's frame began earlier. */
  lemma SpanningWalk(em: Emulator, t: TermState, s: Spec, bytes: seq<byte>, c: Cut, early: nat, now: nat)
    requires Same(em, t, s.ledger) && Kept(t, s.ledger) && early > 0
    requires HasGrid(s.ledger) ==> s.ledger.recent <= |LastEntry(s.ledger).output|
    requires s.ledger.recent > 0 || ContentEnd(c.located) > 0
    requires 0 < c.end <= |bytes| && c.located.end == c.end && c.length == early + c.end && c.after.pending.None?
    requires c.after.ledger == Effect(Deliver(s.ledger, bytes[..c.end]), c.located.event, c.length)
    requires Linked(c.next, c.after.clock, c.end) && FramesInside(c.after.clock, bytes[c.end..], c.end)
    requires Walk(em, t, bytes, 0, [c.located] + Locate(c.next, bytes[c.end..], c.end), now).Fed?
    ensures var rest := bytes[c.end..];
            var v := Walk(em, t, bytes, 0, [c.located] + Locate(c.next, rest, c.end), now).state;
            var kept := Kept(v, Flush(SpecRun(c.after, rest)).ledger);
            && (RoomIsSpent(s.ledger, early) ==> kept)
            && (kept && (c.end == |bytes| || !c.located.event.Preexec?) ==> RoomIsSpent(s.ledger, early))
  {
    hide *;
    var l, rest, ls, e := s.ledger, bytes[c.end..], Locate(c.next, bytes[c.end..], c.end), c.located.event;
    DispatchRefines(em, t, l, bytes[..c.end]);
    SameSize(em, Dispatch(em, t, bytes[..c.end]), Deliver(l, bytes[..c.end]));
    WalkStep(em, t, bytes, 0, c.located, ls, now);
    RoomIs(l, early);
    FirstRoundLeaks(em, t, l, bytes, c.located, early, now);
    FirstRoundIs(em, t, bytes, c.located, now);
    var u := Round(em, t, bytes, 0, c.located, now);
    var kept := Capture(Dispatch(em, t, bytes[..c.end]), bytes[..ContentEnd(c.located)]);
    var r := Retract(Deliver(l, bytes[..c.end]), c.length);
    if RoomIsSpent(l, early) { WalkKeeps(em, u, c.after, c.next, rest, c.end, now); }
    if Kept(Walk(em, u, rest, c.end, ls, now).state, Flush(SpecRun(c.after, rest)).ledger) {
      if c.end == |bytes| {
        assert rest == [];
        FeedNothing(c.next, c.end);
        WalkNone(em, u, rest, c.end, now);
        CapturingNothing(em, u, c.after.ledger);
        RunNothing(c.after);
        FlushSettles(c.after);
      } else if !e.Preexec? && HasGrid(l) {
        HasGridStays(l, bytes[..c.end], c.length);
        EffectIs(Deliver(l, bytes[..c.end]), e, c.length);
        SealedRest(em, kept, r, e, c.after, rest, c.end, ls, now);
      }
    }
  }

  lemma RoomIs(l: Ledger, early: nat)
    ensures RoomIsSpent(l, early) <==>
            !HasGrid(l) || Blocks.Newlines(FrameFree(l, early)) >= Blocks.MAX_BLOCK_OUTPUT_LINES
  {
  }

  lemma AgreesOnCore(em: Emulator, t: TermState, s: Spec)
    requires Agrees(em, t, s)
    ensures t.core == s.clock.core && Aware(s.clock)
  {
    hide Same;
  }

  lemma SomeFirst(c: Core, bytes: seq<byte>)
    requires Sane(c) && Events(c, bytes) != []
    ensures FirstEvent(c, bytes) < |bytes|
  {
    hide *;
    if FirstEvent(c, bytes) >= |bytes| { NoEvent(Tracker(c, None, None), bytes, 0); }
  }

  lemma AfterIs(s: Spec, bytes: seq<byte>, end: nat)
    requires end <= |bytes|
    ensures Flush(SpecRun(s, bytes[..end])).clock == TickAll(s.clock, bytes[..end])
  {
    hide *;
    SpecRunsClock(s, bytes[..end]);
    FlushSettles(SpecRun(s, bytes[..end]));
  }

  lemma FirstIs(k: Tracker, bytes: seq<byte>, l: Located, ls: seq<Located>)
    requires Locate(k, bytes, 0) == [l] + ls
    ensures Events(k.core, bytes) != [] && Events(k.core, bytes)[0] == l.event
  {
    LocatedEventsAreTheEvents(k, bytes, 0);
  }

  lemma EndsWithFrameIs(c: Core, bytes: seq<byte>, end: nat)
    requires var p := FirstEvent(c, bytes); p < |bytes| && end == p + EndAt(bytes[p..], 0)
    ensures EndsWithFrame(c, bytes) <==> end == |bytes|
  {
  }

  /** The call's input ends with the frame of its first event. */
  predicate EndsWithFrame(c: Core, bytes: seq<byte>) {
    var p := FirstEvent(c, bytes);
    p < |bytes| && |bytes| == p + EndAt(bytes[p..], 0)
  }

  /** A FRAME THAT SPANS CALLS IS CAPTURED, EXACTLY WHEN. The call that ends a frame begun in an earlier call leaves
    captured outputs right if no grid was attached, or the block's output without the frame had its 5000 newlines
    already; and only then, when the event seals the block or the call ends with the frame. */
  lemma SpanningFrameIsCapturedExactlyWhen(em: Emulator, t: TermState, s: Spec, bytes: seq<byte>, now: nat)
    requires Agrees(em, t, s) && s.pending.None? && Counted(s) && Kept(t, s.ledger)
    requires Events(t.core, bytes) != [] && Early(s.clock, bytes) > 0
    requires TerminalModel.Feed(em, t, bytes, now).Fed?
    ensures var kept := Kept(TerminalModel.Feed(em, t, bytes, now).state, Flush(SpecRun(s, bytes)).ledger);
            && (RoomIsSpent(s.ledger, Early(s.clock, bytes)) ==> kept)
            && (kept && (EndsWithFrame(t.core, bytes) || !Events(t.core, bytes)[0].Preexec?) ==>
                 RoomIsSpent(s.ledger, Early(s.clock, bytes)))
  {
    hide *;
    var k, early := Tracker(t.core, None, t.frameStart), Early(s.clock, bytes);
    AgreesOnCore(em, t, s);
    CountedIs(s);
    FlushSettles(s);
    AgreesIs(em, t, s);
    SomeFirst(t.core, bytes);
    var p := FirstEvent(t.core, bytes);
    var c := CutEvent(k, s, bytes, 0);
    SpanningCut(k, s, bytes, c);
    AfterFirst(k, s.clock, bytes, p, c.end);
    AfterIs(s, bytes, c.end);
    FirstIs(k, bytes, c.located, Locate(c.next, bytes[c.end..], c.end));
    var t1 := FeedIs(em, t, bytes, now);
    OtherFields(em, t, t1, s.ledger);
    SpanningWalk(em, t1, s, bytes, c, early, now);
    EndsWithFrameIs(t.core, bytes, c.end);
  }

  // ---- one frame in three writes ----

  lemma {:induction false} QuietIsInside(c: Clock, bytes: seq<byte>, at: nat)
    requires Events(c.core, bytes) == []
    ensures FramesInside(c, bytes, at) && !Completes(c.core, bytes)
    decreases |bytes|
  {
    if |bytes| > 0 {
      assert Emit(c.core, bytes[0]).None?;
      hide Emit;
      QuietIsInside(Tick(c, bytes[0]), bytes[1..], at + 1);
    }
  }

  /** A terminal and the reference, with nothing pending, all stored outputs right. */
  ghost predicate InStep(em: Emulator, t: TermState, s: Spec) {
    Agrees(em, t, s) && s.pending.None? && Counted(s) && Kept(t, s.ledger)
  }

  lemma InStepIs(em: Emulator, t: TermState, s: Spec)
    ensures InStep(em, t, s) <==> Agrees(em, t, s) && s.pending.None? && Counted(s) && Kept(t, s.ledger)
  {
    hide Agrees, Counted, Kept;
  }

  /** A call that completes no event. */
  lemma QuietCall(em: Emulator, t: TermState, s: Spec, bytes: seq<byte>, now: nat)
    requires InStep(em, t, s) && Events(t.core, bytes) == []
    ensures var r := TerminalModel.Feed(em, t, bytes, now); var u := SpecRun(s, bytes);
            && r.Fed? && InStep(em, r.state, u) && u.ledger == Deliver(s.ledger, bytes)
            && u.clock == TickAll(s.clock, bytes)
            && r.state.core == Run(t.core, bytes)
            && r.state.frameStart == TrackAll(Tracker(t.core, None, t.frameStart), bytes, 0).frameStart
  {
    hide *;
    InStepIs(em, t, s);
    AgreesOnCore(em, t, s);
    AwareIsSane(s.clock);
    QuietIsInside(s.clock, bytes, 0);
    FeedPanicsExactlyWhen(em, t, bytes, now);
    FlushSettles(s);
    FeedRefines(em, t, s, bytes, now);
    FeedKeeps(em, t, s, bytes, now);
    QuietRun(s, bytes);
    FlushSettles(SpecRun(s, bytes));
    RunIsCounted(s, bytes);
    var t1 := FeedIs(em, t, bytes, now);
    WalkKeepsCore(em, t1, bytes, 0, Locate(Tracker(t.core, None, t.frameStart), bytes, 0), now);
    SameCoreIs(t1, TerminalModel.Feed(em, t, bytes, now).state);
    InStepIs(em, TerminalModel.Feed(em, t, bytes, now).state, SpecRun(s, bytes));
  }

  lemma NoneLocated(k: Tracker, bytes: seq<byte>)
    requires Locate(k, bytes, 0) == []
    ensures Events(k.core, bytes) == []
  {
    LocatedEventsAreTheEvents(k, bytes, 0);
  }

  /** The reference clock over a header and a body. */
  lemma {:induction false} BodyTicks(c: Clock, read: seq<byte>, body: seq<byte>)
    requires c.core == Reading(read) && Endless(body)
    ensures TickAll(c, body).frameLength == c.frameLength + |body|
    decreases |body|
  {
    if |body| > 0 {
      BodyTick(c, read, body[0]);
      hide Tick, Reading;
      BodyTicks(Tick(c, body[0]), read + [body[0]], body[1..]);
    }
  }

  lemma BodyTick(c: Clock, read: seq<byte>, b: byte)
    requires c.core == Reading(read) && Endless([b])
    ensures Tick(c, b).core == Reading(read + [b]) && Tick(c, b).frameLength == c.frameLength + 1
  {
    assert [b][0] == b;
    CollectingConcatenates(read, [b]);
    assert [b][1..] == [] && Collected([b]) == if b < 0x7F then [b] else [];
    assert Collected(read) + [] == Collected(read);
  }

  lemma HeaderTicks(c: Clock)
    requires Idle(c.core)
    ensures TickAll(c, DCS + OURS).frameLength == 4
  {
    var h := DCS + OURS;
    var c1 := Tick(c, h[0]);
    var c2 := Tick(c1, h[1]);
    var c3 := Tick(c2, h[2]);
    var c4 := Tick(c3, h[3]);
    assert h[1..][1..][1..][1..] == [];
    assert TickAll(c3, h[1..][1..][1..]) == c4;
    assert TickAll(c2, h[1..][1..]) == c4;
    assert TickAll(c, h) == c4;
  }

  /** The terminator of a frame in progress completes its event and ends with it. */
  lemma TerminatorCompletesFirst(c: Core, st: Terminator)
    requires c.isOurs && c.parser.state == DcsPassthrough && ParseBody(c.buf).Some?
    ensures var t := TerminatorBytes(st);
            && FirstEvent(c, t) == 0 && Events(c, t) != [] && EndsWithFrame(c, t)
  {
    hide ParseBody;
    var t := TerminatorBytes(st);
    assert Emit(c, t[0]) == ParseBody(c.buf);
    assert t[0..] == t;
  }

  lemma EarlyAtOnce(c: Clock, bytes: seq<byte>)
    requires FirstEvent(c.core, bytes) == 0
    ensures Early(c, bytes) == c.frameLength
  {
    assert bytes[..0] == [];
  }

  lemma DeliveredFree(l: Ledger, frame: seq<byte>)
    requires HasGrid(l) ==> l.recent <= |LastEntry(l).output|
    ensures HasGrid(Deliver(l, frame)) == HasGrid(l)
    ensures HasGrid(l) ==> FrameFree(Deliver(l, frame), |frame|) == LastEntry(l).output
  {
    hide Typed;
    if HasGrid(l) {
      var o := LastEntry(l).output;
      assert (o + frame)[..|o|] == o;
    }
  }

  /** ONE FRAME IN THREE WRITES. From any terminal between escape sequences that agrees with the reference: header, body
    and terminator of a valid frame in one call each. The feeds complete; the captured outputs are right afterwards
    exactly when no grid was attached or the block's output had its 5000 newlines already. */
  lemma FrameInThreeWrites(em: Emulator, t: TermState, s: Spec, body: seq<byte>, st: Terminator, n0: nat, n1: nat,
                           n2: nat)
    requires InStep(em, t, s) && Idle(t.core) && Endless(body) && ParseBody(Collected(body)).Some?
    ensures var r := DoAll(em, t, Feeds([DCS + OURS, body, TerminatorBytes(st)], [n0, n1, n2]));
            && r.Fed?
            && (Kept(r.state, Flush(SpecRun(s, Render(Frame(body, st)))).ledger) <==>
                !HasGrid(s.ledger) || Blocks.Newlines(LastEntry(s.ledger).output) >= Blocks.MAX_BLOCK_OUTPUT_LINES)
  {
    hide *;
    var h, e := DCS + OURS, TerminatorBytes(st);
    InStepIs(em, t, s);
    AgreesOnCore(em, t, s);
    CountedIs(s);
    var k0 := Tracker(t.core, None, t.frameStart);
    HeaderIsRead(k0, 0);
    TrackingRuns(k0, h, 0);
    NoneLocated(k0, h);
    QuietCall(em, t, s, h, n0);
    HeaderTicks(s.clock);
    var t1, s1 := TerminalModel.Feed(em, t, h, n0).state, SpecRun(s, h);
    var k1 := Tracker(t1.core, None, t1.frameStart);
    BodyIsRead(k1, [], body, 0);
    assert [] + body == body;
    TrackingRuns(k1, body, 0);
    NoneLocated(k1, body);
    QuietCall(em, t1, s1, body, n1);
    var t2, s2 := TerminalModel.Feed(em, t1, body, n1).state, SpecRun(s1, body);
    InStepIs(em, t1, s1);
    InStepIs(em, t2, s2);
    AgreesOnCore(em, t1, s1);
    AgreesOnCore(em, t2, s2);
    BodyTicks(s1.clock, [], body);
    ReadingIs(body);
    HeaderLength();
    LastWrite(em, t2, s2, st, 4 + |body|, n2);
    DeliverConcatenates(s.ledger, h, body);
    DeliveredFree(s.ledger, h + body);
    RoomIs(s2.ledger, 4 + |body|);
    ThreeFeeds(em, t, h, body, e, n0, n1, n2);
    FrameIs(body, st);
    SpecRunConcatenates(s, h + body, e);
    SpecRunConcatenates(s, h, body);
  }

  lemma HeaderLength()
    ensures |DCS + OURS| == 4
  {
  }

  lemma FrameIs(body: seq<byte>, st: Terminator)
    ensures Render(Frame(body, st)) == ((DCS + OURS) + body) + TerminatorBytes(st)
  {
    assert DCS + (OURS + body) == (DCS + OURS) + body;
  }

  lemma LastWrite(em: Emulator, t: TermState, s: Spec, st: Terminator, length: nat, now: nat)
    requires InStep(em, t, s) && t.core.isOurs && t.core.parser.state == DcsPassthrough && ParseBody(t.core.buf).Some?
    requires t.frameStart == Some(0) && s.clock.frameLength == length > 0 && t.core == s.clock.core
    ensures var r := TerminalModel.Feed(em, t, TerminatorBytes(st), now);
            r.Fed? && (Kept(r.state, Flush(SpecRun(s, TerminatorBytes(st))).ledger) <==> RoomIsSpent(s.ledger, length))
  {
    hide *;
    var e := TerminatorBytes(st);
    InStepIs(em, t, s);
    AgreesOnCore(em, t, s);
    AwareIsSane(s.clock);
    FeedPanicsExactlyWhen(em, t, e, now);
    TerminatorCompletesFirst(t.core, st);
    EarlyAtOnce(s.clock, e);
    SpanningFrameIsCapturedExactlyWhen(em, t, s, e, now);
  }

  lemma ThreeFeeds(em: Emulator, t: TermState, a: seq<byte>, b: seq<byte>, c: seq<byte>, n0: nat, n1: nat, n2: nat)
    requires TerminalModel.Feed(em, t, a, n0).Fed?
    requires TerminalModel.Feed(em, TerminalModel.Feed(em, t, a, n0).state, b, n1).Fed?
    ensures DoAll(em, t, Feeds([a, b, c], [n0, n1, n2])) ==
            TerminalModel.Feed(em, TerminalModel.Feed(em, TerminalModel.Feed(em, t, a, n0).state, b, n1).state, c, n2)
  {
    hide TerminalModel.Feed;
    var calls := Feeds([a, b, c], [n0, n1, n2]);
    assert calls == [Feed(a, n0), Feed(b, n1), Feed(c, n2)];
    assert calls[1..] == [Feed(b, n1), Feed(c, n2)] && calls[1..][1..] == [Feed(c, n2)] && calls[1..][1..][1..] == [];
    var u := TerminalModel.Feed(em, t, a, n0).state;
    var v := TerminalModel.Feed(em, u, b, n1).state;
    assert DoAll(em, v, [Feed(c, n2)]) == TerminalModel.Feed(em, v, c, n2);
    assert DoAll(em, u, [Feed(b, n1), Feed(c, n2)]) == DoAll(em, v, [Feed(c, n2)]);
  }

  /** A command announced, and its output so far. */
  function Running(command: seq<byte>, st: Terminator, output: seq<byte>): seq<Piece> {
    [Stream.Put(Message(WirePrinter.PreexecMessage(command), st)), Styled(output)]
  }

  lemma RunningIs(l: Ledger, command: seq<byte>, st: Terminator, output: seq<byte>)
    requires Blank(l) && !HasGrid(l) && Unheard(output)
    ensures AllGood(Running(command, st, output))
    ensures var r := Play(l, Running(command, st, output)); HasGrid(r) && LastEntry(r).output == output
  {
    var start: Piece := Stream.Put(Message(WirePrinter.PreexecMessage(command), st));
    var body: seq<Piece> := [Styled(output)];
    assert Running(command, st, output) == [start] + body;
    hide *;
    PutIsGood(Message(WirePrinter.PreexecMessage(command), st));
    HeardIs(command, 0);
    OutputIsBody(output, []);
    GoodOne(start);
    GoodConcatenates([start], body);
    PieceAttaches(l, start);
    PlayOne(l, start);
    PlayConcatenates(l, [start], body);
    SpanFills(PlayPiece(l, start), body);
    assert [] + OutputBytes(body) == OutputBytes(body);
  }

  /** A session in one call leaves a terminal in step. */
  lemma SessionIsInStep(em: Emulator, cols: nat, rows: nat, ps: seq<Piece>, now: nat)
    requires AllGood(ps)
    ensures var r := TerminalModel.Feed(em, New(cols, rows), RenderAll(ps), now);
            var s := SpecRun(NewSpec(cols, rows), RenderAll(ps));
            r.Fed? && InStep(em, r.state, s) && Idle(r.state.core) && s.ledger == Play(NewSpec(cols, rows).ledger, ps)
  {
    hide *;
    var s, t, stream := NewSpec(cols, rows), New(cols, rows), RenderAll(ps);
    var calls := Feeds([stream], [now]);
    OneCallIsSafe(cols, rows, stream, now);
    OneCallRuns(em, t, stream, now);
    InitiallyAgrees(em, cols, rows);
    NewIsSettled(cols, rows);
    CleanCutsSplitNothing(s, [stream], [now], false);
    FeedsAreOneStream(s, [stream], [now]);
    SessionIsPlayed(em, cols, rows, ps, [stream], [now]);
    RunsRefine(em, t, s, calls);
    NewIsReady(cols, rows);
    StreamIsPlayed(s, ps);
    RunIsCounted(s, stream);
    SettledIs(SpecRun(s, stream));
    var u := TerminalModel.Feed(em, t, stream, now).state;
    AgreesOnCore(em, u, SpecRun(s, stream));
    InStepIs(em, u, SpecRun(s, stream));
  }

  lemma NewIsReady(cols: nat, rows: nat)
    ensures Settled(NewSpec(cols, rows)) && Counted(NewSpec(cols, rows))
  {
  }

  lemma FirstOfFour(em: Emulator, t: TermState, a: seq<byte>, rest: seq<seq<byte>>, n: nat, nows: seq<nat>)
    requires |rest| == |nows| && TerminalModel.Feed(em, t, a, n).Fed?
    ensures DoAll(em, t, Feeds([a] + rest, [n] + nows)) ==
            DoAll(em, TerminalModel.Feed(em, t, a, n).state, Feeds(rest, nows))
  {
    hide TerminalModel.Feed;
    assert Feeds([a] + rest, [n] + nows)[0] == Feed(a, n);
    assert Feeds([a] + rest, [n] + nows)[1..] == Feeds(rest, nows);
  }

  /** THE THREE WRITES OF ONE FRAME LEAK. A new terminal, a command announced, any output of whole escape sequences;
    then one valid frame in three calls. The feeds complete, and what is stored is the command's output exactly when
    that had its 5000 newlines already. */
  lemma ThreeWritesLeakExactlyWhen(em: Emulator, cols: nat, rows: nat, command: seq<byte>, st: Terminator,
                                   output: seq<byte>, body: seq<byte>, end: Terminator, now: nat)
    requires Unheard(output) && Endless(body) && ParseBody(Collected(body)).Some?
    ensures var front := RenderAll(Running(command, st, output));
            var chunks := [front] + [DCS + OURS, body, TerminatorBytes(end)];
            var r := DoAll(em, New(cols, rows), Feeds(chunks, [now] + [now, now, now]));
            && r.Fed?
            && (Kept(r.state, Flush(SpecRun(NewSpec(cols, rows), front + Render(Frame(body, end)))).ledger) <==>
                Blocks.Newlines(output) >= Blocks.MAX_BLOCK_OUTPUT_LINES)
  {
    hide *;
    var s, t, ps := NewSpec(cols, rows), New(cols, rows), Running(command, st, output);
    var front := RenderAll(ps);
    NewLedgerIs(cols, rows);
    RunningIs(s.ledger, command, st, output);
    SessionIsInStep(em, cols, rows, ps, now);
    var u := TerminalModel.Feed(em, t, front, now).state;
    FrameInThreeWrites(em, u, SpecRun(s, front), body, end, now, now, now);
    FirstOfFour(em, t, front, [DCS + OURS, body, TerminatorBytes(end)], now, [now, now, now]);
    SpecRunConcatenates(s, front, Render(Frame(body, end)));
  }
}
