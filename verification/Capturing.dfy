/** Captured output is the block's input without event frames, when each event frame lies inside one call. */
module Capturing {
  import opened Bytes
  import opened Vte
  import opened Wire
  import opened Sniffer
  import opened Grid
  import opened Routing
  import opened TerminalModel
  import opened Refinement
  import Blocks

  /** Each block's stored output is the capped cut of the reference output. */
  ghost predicate Kept(t: TermState, l: Ledger) {
    KeptAs(t, Outputs(l))
  }

  ghost predicate KeptAs(t: TermState, outputs: seq<seq<byte>>) {
    && |t.store.blocks| == |outputs|
    && forall i :: 0 <= i < |outputs| ==>
         Blocks.CapturedFrom(t.store.blocks[i].output, t.store.blocks[i].outputLines, outputs[i])
  }

  function Outputs(l: Ledger): seq<seq<byte>> {
    seq(|l.entries|, i requires 0 <= i < |l.entries| => l.entries[i].output)
  }

  /** Every event completed by this call's bytes has its whole frame in this call. */
  predicate FramesInside(c: Clock, rest: seq<byte>, at: nat)
    decreases |rest|
  {
    |rest| == 0 ||
    ((Emit(c.core, rest[0]).Some? ==> c.frameLength <= at) && FramesInside(Tick(c, rest[0]), rest[1..], at + 1))
  }

  /** An ESC is on record whenever a header is being read; a frame in progress has begun. */
  predicate Aware(c: Clock) {
    && Sane(c.core)
    && (c.core.parser.state in [Escape, DcsEntry, DcsParam, DcsIntermediate] ==> c.sinceEsc > 0)
    && (c.core.isOurs ==> c.frameLength > 0)
  }

  /** Offsets recorded in this call agree with the clock. */
  predicate Linked(k: Tracker, c: Clock, at: nat) {
    && k.core == c.core && Aware(c)
    && (0 < c.sinceEsc <= at ==> k.lastEsc == Some(at - c.sinceEsc))
    && (k.lastEsc.Some? ==> k.lastEsc.value < at)
    && (k.core.isOurs && c.frameLength <= at ==> k.frameStart == Some(at - c.frameLength))
  }

  lemma LinkedStep(k: Tracker, c: Clock, b: byte, at: nat)
    requires Linked(k, c, at)
    ensures Linked(Track(k, b, at), Tick(c, b), at + 1)
    ensures Emit(c.core, b).Some? && c.frameLength <= at ==> StartAt(k, b, at) == Some(at - c.frameLength)
  {
    hide ParseBody;
  }

  lemma {:induction false} LinkedRun(k: Tracker, c: Clock, bs: seq<byte>, at: nat)
    requires Linked(k, c, at)
    ensures Linked(TrackAll(k, bs, at), TickAll(c, bs), at + |bs|)
    decreases |bs|
  {
    hide Linked, Track, Tick;
    if |bs| > 0 {
      LinkedStep(k, c, bs[0], at);
      LinkedRun(Track(k, bs[0], at), Tick(c, bs[0]), bs[1..], at + 1);
    }
  }

  lemma {:induction false} InsideAt(c: Clock, rest: seq<byte>, at: nat, n: nat)
    requires FramesInside(c, rest, at) && n <= |rest|
    ensures FramesInside(TickAll(c, rest[..n]), rest[n..], at + n)
    decreases n
  {
    hide Tick, Emit;
    if n == 0 {
      assert rest[..0] == [] && rest[0..] == rest;
    } else {
      InsideAt(Tick(c, rest[0]), rest[1..], at + 1, n - 1);
      assert rest[1..][..n - 1] == rest[..n][1..] && rest[1..][n - 1..] == rest[n..];
    }
  }

  /** Where the cut event's frame began. */
  lemma CutStart(k: Tracker, s: Spec, rest: seq<byte>, at: nat, c: Cut)
    requires Linked(k, s.clock, at) && FramesInside(s.clock, rest, at)
    requires FirstEvent(k.core, rest) < |rest|
    requires var p := FirstEvent(k.core, rest);
             c.located.start == StartAt(TrackAll(k, rest[..p], at), rest[p], at + p)
             && c.end >= at + p && c.length == TickAll(s.clock, rest[..p]).frameLength + (c.end - at - p)
    ensures c.length <= c.end && c.located.start == Some(c.end - c.length)
  {
    hide Tick, Emit, StartAt, FirstEvent, Track, Sane, TrackAll, TickAll, Linked, Locate, Run, Events, FramesInside;
    var p := FirstEvent(k.core, rest);
    var k1, c1 := TrackAll(k, rest[..p], at), TickAll(s.clock, rest[..p]);
    LinkedIsSane(k, s.clock, at);
    QuietBefore(k, rest, at);
    LinkedRun(k, s.clock, rest[..p], at);
    LinkedIsSane(k1, c1, at + p);
    InsideAt(s.clock, rest, at, p);
    InsideNow(c1, rest[p..], at + p);
    LinkedStep(k1, c1, rest[p], at + p);
  }

  lemma LinkedIsSane(k: Tracker, c: Clock, at: nat)
    requires Linked(k, c, at)
    ensures Sane(k.core) && k.core == c.core && (k.lastEsc.Some? ==> k.lastEsc.value < at)
  {
  }

  lemma InsideNow(c: Clock, rest: seq<byte>, at: nat)
    requires FramesInside(c, rest, at) && |rest| > 0
    ensures Emit(c.core, rest[0]).Some? ==> c.frameLength <= at
  {
  }

  // ---- one segment ----

  /** Output added to the running block. */
  function Extended(l: Ledger, bytes: seq<byte>): seq<seq<byte>> {
    if HasGrid(l) then Outputs(l)[|l.entries| - 1 := l.entries[|l.entries| - 1].output + bytes] else Outputs(l)
  }

  lemma CaptureKept(em: Emulator, t: TermState, l: Ledger, seg: seq<byte>, front: seq<byte>)
    requires Same(em, t, l) && Kept(t, l) && |seg| > 0
    ensures KeptAs(Capture(Dispatch(em, t, seg), front), Extended(l, front))
  {
    OpenMatches(em, t, l);
    hide Same, Blocks.CapturedFrom, Blocks.Captured, Blocks.Newlines, Typed, Tag;
    if HasGrid(l) {
      var i := |l.entries| - 1;
      Blocks.CaptureExtends(t.store.blocks[i].output, t.store.blocks[i].outputLines, l.entries[i].output, front);
    }
  }

  lemma RetractedOutputs(l: Ledger, seg: seq<byte>, j: nat, length: nat)
    requires j <= |seg|
    requires if length <= |seg| then j == |seg| - length else j == 0 && l.recent == 0
    ensures Outputs(Retract(Deliver(l, seg), length)) == Extended(l, seg[..j])
    ensures Outputs(Deliver(l, seg)) == Extended(l, seg)
  {
    if HasGrid(l) {
      var e := l.entries[|l.entries| - 1];
      assert (e.output + seg)[..|e.output| + j] == e.output + seg[..j];
    }
  }

  /** Feeding a segment and capturing its front keeps what the reference keeps after retracting the rest. */
  lemma SegmentKept(em: Emulator, t: TermState, l: Ledger, seg: seq<byte>, j: nat, length: nat)
    requires Same(em, t, l) && Kept(t, l) && j <= |seg|
    requires if length <= |seg| then j == |seg| - length else j == 0 && l.recent == 0
    ensures Kept(Capture(Dispatch(em, t, seg), seg[..j]), Retract(Deliver(l, seg), length))
    ensures j == |seg| ==> Kept(Capture(Dispatch(em, t, seg), seg), Deliver(l, seg))
  {
    hide Same, Capture, Dispatch, Retract, Deliver, Extended, Outputs, KeptAs;
    RetractedOutputs(l, seg, j, length);
    assert seg[..|seg|] == seg;
    if |seg| == 0 {
      CapturingNothing(em, t, l);
      ExtendNothing(l);
    } else {
      CaptureKept(em, t, l, seg, seg[..j]);
    }
  }

  lemma ExtendNothing(l: Ledger)
    ensures Extended(l, []) == Outputs(l)
  {
    if HasGrid(l) { assert l.entries[|l.entries| - 1].output + [] == l.entries[|l.entries| - 1].output; }
  }

  lemma CapturingNothing(em: Emulator, t: TermState, l: Ledger)
    requires Same(em, t, l)
    ensures Capture(Dispatch(em, t, []), []) == t
  {
    DispatchNone(em, t);
    CaptureNone(t);
  }

  lemma SealKept(em: Emulator, t: TermState, l: Ledger, line: int, exitCode: Option<int>, duration: Option<nat>,
                 mark: Mark)
    requires Same(em, t, l) && Kept(t, l)
    ensures Kept(t.(store := Blocks.Seal(em, t.store, line, exitCode, duration)),
                 l.(entries := SealLast(l.entries, exitCode, mark)))
  {
    OpenMatches(em, t, l);
    hide Same, Blocks.CapturedFrom, Frozen, UsedRows, Blocks.SealedEnd;
  }

  lemma OpenKept(t: TermState, l: Ledger, line: int, pwd: Option<seq<byte>>, branch: Option<seq<byte>>, mark: Mark)
    requires Kept(t, l)
    ensures Kept(t.(store := Blocks.OpenNew(t.store, line, pwd, branch)), Routing.Open(l, pwd, branch, mark))
  {
    assert Blocks.CapturedFrom([], 0, []);
    hide Blocks.CapturedFrom;
  }

  lemma PreexecKept(em: Emulator, t: TermState, l: Ledger, command: seq<byte>, line: int, now: nat)
    requires Same(em, t, l) && Kept(t, l)
    ensures Kept(t.(store := Blocks.Apply(em, t.store, Preexec(command), line, now, t.cols, t.rows)),
                 Happen(l, Preexec(command)))
  {
    OpenMatches(em, t, l);
    hide Same, Blocks.CapturedFrom;
    if t.store.openIndex.None? { OpenKept(t, l, line, None, None, MarkNow(l)); }
  }

  lemma HappenKept(em: Emulator, t: TermState, l: Ledger, e: DcsEvent, now: nat)
    requires Same(em, t, l) && Kept(t, l)
    ensures Kept(ApplyEvent(em, t, e, now), Happen(l, e))
  {
    OpenMatches(em, t, l);
    var line, mark := CurrentLine(em, t), MarkNow(l);
    hide Same, Kept, CurrentLine, MarkNow;
    match e
    case Precmd(pwd, branch) =>
      SealKept(em, t, l, line, None, None, mark);
      hide Blocks.Seal, SealLast, Blocks.OpenNew, Routing.Open;
      OpenKept(t.(store := Blocks.Seal(em, t.store, line, None, None)), l.(entries := SealLast(l.entries, None, mark)),
               line, pwd, branch, mark);
    case Preexec(command) =>
      PreexecKept(em, t, l, command, line, now);
    case CommandFinished(code) =>
      ClockUnseen(em, t, l);
      SealKept(em, t.(store := t.store.(commandStart := None)), l, line, Some(code),
               Blocks.Elapsed(t.store.commandStart, now), mark);
  }

  lemma ClockUnseen(em: Emulator, t: TermState, l: Ledger)
    requires Same(em, t, l) && Kept(t, l)
    ensures var u := t.(store := t.store.(commandStart := None)); Same(em, u, l) && Kept(u, l)
  {
  }

  lemma {:induction false} SpecRunsClock(s: Spec, bs: seq<byte>)
    ensures SpecRun(s, bs).clock == TickAll(s.clock, bs)
    decreases |bs|
  {
    if |bs| > 0 {
      StepRunsClock(s, bs[0]);
      hide SpecStep, Tick;
      SpecRunsClock(SpecStep(s, bs[0]), bs[1..]);
    }
  }

  lemma StepRunsClock(s: Spec, b: byte)
    ensures SpecStep(s, b).clock == Tick(s.clock, b)
  {
    hide Effect, Deliver, Emit, Tick;
  }

  lemma EffectKept(em: Emulator, t: TermState, l: Ledger, e: DcsEvent, length: nat, now: nat)
    requires Same(em, t, l) && Kept(t, Retract(l, length))
    ensures Kept(ApplyEvent(em, t, e, now), Effect(l, e, length)) && Effect(l, e, length).recent == 0
  {
    hide Same, ApplyEvent, Retract, Happen;
    RetractIsUnseen(em, t, l, length);
    HappenKept(em, t, Retract(l, length), e, now);
  }

  /** One event of the loop: what was captured is what the reference keeps. */
  lemma EventKept(em: Emulator, t: TermState, s: Spec, rest: seq<byte>, at: nat, c: Cut, now: nat)
    requires Same(em, t, s.ledger) && Kept(t, s.ledger) && (at == 0 || s.ledger.recent == 0)
    requires at <= c.end <= at + |rest| && c.length <= c.end && c.located.start == Some(c.end - c.length)
    requires c.after.ledger == Effect(Deliver(s.ledger, rest[..c.end - at]), c.located.event, c.length)
    ensures var seg, content := rest[..c.end - at], c.end - c.length;
            var sent := Dispatch(em, t, seg);
            var kept := if content > at then Capture(sent, rest[..content - at]) else sent;
            var done := ApplyEvent(em, kept, c.located.event, now);
            Same(em, done, c.after.ledger) && Kept(done, c.after.ledger) && c.after.ledger.recent == 0
  {
    hide Same, Kept, Dispatch, Capture, Deliver, Retract, Effect, ApplyEvent;
    var seg, content := rest[..c.end - at], c.end - c.length;
    var sent := Dispatch(em, t, seg);
    var delivered := Deliver(s.ledger, seg);
    var j := if content > at then content - at else 0;
    DispatchRefines(em, t, s.ledger, seg);
    SegmentKept(em, t, s.ledger, seg, j, c.length);
    assert seg[..j] == rest[..j];
    var kept := if content > at then Capture(sent, rest[..content - at]) else sent;
    if content <= at {
      assert seg[..0] == [];
      SameIsCoherent(em, sent, delivered);
      CaptureNone(sent);
    }
    CaptureIsUnseen(em, sent, delivered, rest[..j]);
    EffectRefines(em, kept, delivered, c.located.event, c.length, now);
    EffectKept(em, kept, delivered, c.located.event, c.length, now);
  }

  lemma SameIsCoherent(em: Emulator, t: TermState, l: Ledger)
    requires Same(em, t, l)
    ensures Blocks.Inv(t.store)
  {
  }

  lemma {:induction false} WalkKeeps(em: Emulator, t: TermState, s: Spec, k: Tracker, rest: seq<byte>, at: nat,
                                     now: nat)
    requires s.pending.None? && Linked(k, s.clock, at) && FramesInside(s.clock, rest, at)
    requires Same(em, t, s.ledger) && Kept(t, s.ledger) && (at == 0 || s.ledger.recent == 0)
    requires Walk(em, t, rest, at, Locate(k, rest, at), now).Fed?
    ensures Kept(Walk(em, t, rest, at, Locate(k, rest, at), now).state, Flush(SpecRun(s, rest)).ledger)
    decreases |rest|
  {
    hide *;
    LinkedIsSane(k, s.clock, at);
    if FirstEvent(k.core, rest) == |rest| {
      NoEvent(k, rest, at);
      QuietRun(s, rest);
      FlushSettles(SpecRun(s, rest));
      WalkNone(em, t, rest, at, now);
      SegmentKept(em, t, s.ledger, rest, |rest|, 0);
    } else {
      var c := CutEvent(k, s, rest, at);
      var n := c.end - at;
      CutStart(k, s, rest, at, c);
      WalkStep(em, t, rest, at, c.located, Locate(c.next, rest[n..], c.end), now);
      RoundIs(em, t, rest, at, c.located, now);
      StartIs(c.located);
      EventKept(em, t, s, rest, at, c, now);
      LinkedRun(k, s.clock, rest[..n], at);
      SpecRunsClock(s, rest[..n]);
      FlushSettles(SpecRun(s, rest[..n]));
      InsideAt(s.clock, rest, at, n);
      WalkKeeps(em, Round(em, t, rest, at, c.located, now), c.after, c.next, rest[n..], c.end, now);
    }
  }

  lemma StartIs(l: Located)
    ensures l.start.Some? ==> ContentEnd(l) == l.start.value
  {
  }
}
