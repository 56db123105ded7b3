/** A cut between the two bytes of a 7-bit terminator, and exactly what it changes.

  The program lets the event happen before the backslash is delivered; the reference delivers the backslash first. */
module Splits {
  import opened Bytes
  import opened Vte
  import opened Wire
  import opened Sniffer
  import opened Grid
  import opened Stream
  import opened Routing
  import opened TerminalModel
  import opened Refinement
  import opened Capturing
  import opened Runs
  import opened Session
  import opened Hazards
  import opened Leaks
  import opened Slices
  import Blocks
  import WirePrinter

  // ---- two references side by side ----

  /** The same grids got the same bytes, and the same bytes went outside. */
  predicate SameRouting(a: Ledger, b: Ledger) {
    && |a.entries| == |b.entries|
    && (forall i :: 0 <= i < |a.entries| ==> a.entries[i].grid == b.entries[i].grid)
    && a.outside == b.outside
  }

  /** The same blocks run and have grids. */
  predicate Parallel(a: Ledger, b: Ledger) {
    && |a.entries| == |b.entries| && a.cols == b.cols && a.rows == b.rows
    && forall i :: 0 <= i < |a.entries| ==>
         a.entries[i].running == b.entries[i].running && a.entries[i].grid.Some? == b.entries[i].grid.Some?
  }

  /** The routing is the same, or one more byte went outside in one of the two. */
  predicate Apart(a: Ledger, b: Ledger, same: bool) {
    Parallel(a, b) && if same then SameRouting(a, b) else |a.outside| != |b.outside|
  }

  lemma ApartIs(a: Ledger, b: Ledger, same: bool)
    requires Apart(a, b, same)
    ensures SameRouting(a, b) <==> same
  {
  }

  lemma DeliverApart(a: Ledger, b: Ledger, bytes: seq<byte>, same: bool)
    requires Apart(a, b, same)
    ensures Apart(Deliver(a, bytes), Deliver(b, bytes), same)
  {
    hide Typed;
  }

  lemma RetractApart(a: Ledger, b: Ledger, n: nat, same: bool)
    requires Apart(a, b, same)
    ensures Apart(Retract(a, n), Retract(b, n), same)
  {
  }

  lemma HappenApart(a: Ledger, b: Ledger, e: DcsEvent, same: bool)
    requires Apart(a, b, same)
    ensures Apart(Happen(a, e).(recent := 0), Happen(b, e).(recent := 0), same)
  {
    hide MarkNow;
  }

  lemma EffectApart(a: Ledger, b: Ledger, e: DcsEvent, n: nat, same: bool)
    requires Apart(a, b, same)
    ensures Apart(Effect(a, e, n), Effect(b, e, n), same)
  {
    hide *;
    RetractApart(a, b, n, same);
    HappenApart(Retract(a, n), Retract(b, n), e, same);
    EffectIs(a, e, n);
    EffectIs(b, e, n);
  }

  /** Two reference states at the same place of the stream. */
  predicate Abreast(a: Spec, b: Spec) {
    a.clock == b.clock && a.pending == b.pending
  }

  lemma FlushApart(a: Spec, b: Spec, same: bool)
    requires Abreast(a, b) && Apart(a.ledger, b.ledger, same)
    ensures Abreast(Flush(a), Flush(b)) && Apart(Flush(a).ledger, Flush(b).ledger, same)
  {
    if a.pending.Some? { EffectApart(a.ledger, b.ledger, a.pending.value.event, a.pending.value.frameLength, same); }
    hide Apart, Effect;
  }

  lemma StepIs(s: Spec, x: byte)
    ensures var r := SpecStep(s, x);
            && r.clock == Tick(s.clock, x)
            && if s.pending.Some? && x == BACKSLASH then
                 && r.pending.None?
                 && r.ledger == Effect(Deliver(s.ledger, [x]), s.pending.value.event, s.pending.value.frameLength + 1)
               else
                 var l, found := Deliver(Flush(s).ledger, [x]), Emit(s.clock.core, x);
                 && r.pending ==
                    (if found.Some? && x == ESC then Some(Pending(found.value, s.clock.frameLength + 1)) else None)
                 && r.ledger == if found.Some? && x != ESC then Effect(l, found.value, s.clock.frameLength + 1) else l
  {
    hide Effect, Deliver, Tick, Emit;
    FlushSettles(s);
  }

  lemma StepApart(a: Spec, b: Spec, x: byte, same: bool)
    requires Abreast(a, b) && Apart(a.ledger, b.ledger, same)
    ensures Abreast(SpecStep(a, x), SpecStep(b, x)) && Apart(SpecStep(a, x).ledger, SpecStep(b, x).ledger, same)
  {
    hide *;
    AbreastIs(a, b);
    AbreastIs(SpecStep(a, x), SpecStep(b, x));
    StepIs(a, x);
    StepIs(b, x);
    if a.pending.Some? && x == BACKSLASH {
      DeliverApart(a.ledger, b.ledger, [x], same);
      EffectApart(Deliver(a.ledger, [x]), Deliver(b.ledger, [x]), a.pending.value.event,
                  a.pending.value.frameLength + 1, same);
    } else {
      FlushApart(a, b, same);
      var l, m := Deliver(Flush(a).ledger, [x]), Deliver(Flush(b).ledger, [x]);
      DeliverApart(Flush(a).ledger, Flush(b).ledger, [x], same);
      if Emit(a.clock.core, x).Some? { EffectApart(l, m, Emit(a.clock.core, x).value, a.clock.frameLength + 1, same); }
    }
  }

  lemma AbreastIs(a: Spec, b: Spec)
    ensures Abreast(a, b) <==> a.clock == b.clock && a.pending == b.pending
  {
  }

  lemma {:induction false} RunApart(a: Spec, b: Spec, bs: seq<byte>, same: bool)
    requires Abreast(a, b) && Apart(a.ledger, b.ledger, same)
    ensures Abreast(SpecRun(a, bs), SpecRun(b, bs)) && Apart(SpecRun(a, bs).ledger, SpecRun(b, bs).ledger, same)
    decreases |bs|
  {
    if |bs| > 0 {
      StepApart(a, b, bs[0], same);
      hide Abreast, Apart, SpecStep;
      RunApart(SpecStep(a, bs[0]), SpecStep(b, bs[0]), bs[1..], same);
    }
  }

  // ---- the backslash ----

  /** The ledger when the event happens first, and when the backslash comes first. */
  lemma BackslashIs(s: Spec)
    requires s.pending.Some?
    ensures var p := s.pending.value; var a, b := SpecRun(Flush(s), [BACKSLASH]), SpecRun(s, [BACKSLASH]);
            && Abreast(a, b) && a.pending.None? && a.clock == Tick(s.clock, BACKSLASH)
            && a.ledger == Deliver(Effect(s.ledger, p.event, p.frameLength), [BACKSLASH])
            && b.ledger == Effect(Deliver(s.ledger, [BACKSLASH]), p.event, p.frameLength + 1)
  {
    hide Effect, Deliver, Tick, ParseBody;
    assert [BACKSLASH][1..] == [];
    assert Emit(s.clock.core, BACKSLASH).None?;
  }

  lemma EventFirst(l: Ledger, e: DcsEvent, n: nat)
    ensures Apart(Deliver(Effect(l, e, n), [BACKSLASH]), Effect(Deliver(l, [BACKSLASH]), e, n + 1),
                  HasGrid(l) == e.Preexec?)
  {
    hide *;
    var r, d := Retract(l, n), Retract(Deliver(l, [BACKSLASH]), n + 1);
    EffectIs(l, e, n);
    EffectIs(Deliver(l, [BACKSLASH]), e, n + 1);
    BackslashRetracted(l, n);
    RetractedParallel(l, n);
    HappenParallel(r, d, e);
    HappenShape(r, e);
    HappenShape(d, e);
    var h, g := Happen(r, e), Happen(d, e);
    assert |l.outside + [BACKSLASH]| == |l.outside| + 1;
    if e.Preexec? && HasGrid(l) {
      ToOneGrid(h, g);
    } else {
      ToOutside(h, g, HasGrid(l));
    }
  }

  lemma RetractedParallel(l: Ledger, n: nat)
    ensures Parallel(Retract(l, n), Retract(Deliver(l, [BACKSLASH]), n + 1))
  {
    hide Typed;
  }

  /** The backslash goes to the grid it went to anyway. */
  lemma ToOneGrid(h: Ledger, g: Ledger)
    requires Parallel(h, g) && HasGrid(h) && HasGrid(g) && h.outside == g.outside
    requires var i := |h.entries| - 1;
             && g.entries[i].grid ==
                Some(h.entries[i].grid.value.(input := h.entries[i].grid.value.input + Typed([BACKSLASH])))
             && forall j :: 0 <= j < i ==> h.entries[j].grid == g.entries[j].grid
    ensures Apart(Deliver(h.(recent := 0), [BACKSLASH]), g.(recent := 0), true)
  {
    hide Typed;
  }

  /** The backslash goes outside in one of the two, or in both. */
  lemma ToOutside(h: Ledger, g: Ledger, grid: bool)
    requires Parallel(h, g) && (HasGrid(h) || grid ==> !(HasGrid(h) && grid))
    requires |g.outside| == |h.outside| + if grid then 0 else 1
    requires !HasGrid(h) && !grid ==>
               g.outside == h.outside + [BACKSLASH]
               && forall j :: 0 <= j < |h.entries| ==> h.entries[j].grid == g.entries[j].grid
    ensures Apart(Deliver(h.(recent := 0), [BACKSLASH]), g.(recent := 0), grid == HasGrid(h))
  {
    hide Typed;
  }

  lemma HappenParallel(a: Ledger, b: Ledger, e: DcsEvent)
    requires Parallel(a, b)
    ensures Parallel(Happen(a, e), Happen(b, e)) && |Happen(a, e).entries| == |Happen(b, e).entries|
  {
    hide MarkNow;
  }

  /** An event leaves the grids there are, and a grid is attached behind it exactly if it is a Preexec. */
  lemma HappenShape(l: Ledger, e: DcsEvent)
    ensures var h := Happen(l, e);
            && HasGrid(h) == e.Preexec? && h.outside == l.outside && |h.entries| >= |l.entries|
            && (!e.Preexec? || HasGrid(l) ==>
                 && (forall i :: 0 <= i < |l.entries| ==> h.entries[i].grid == l.entries[i].grid)
                 && (forall i :: |l.entries| <= i < |h.entries| ==> h.entries[i].grid == None))
            && (e.Preexec? && HasGrid(l) ==> |h.entries| == |l.entries|)
  {
    hide MarkNow;
  }

  lemma BackslashRetracted(l: Ledger, n: nat)
    ensures var r, d := Retract(l, n), Retract(Deliver(l, [BACKSLASH]), n + 1); var i := |l.entries| - 1;
            && |r.entries| == |d.entries| == |l.entries| && r.cols == d.cols && r.rows == d.rows && r.nextId == d.nextId
            && r.outside == l.outside && d.outside == (if HasGrid(l) then l.outside else l.outside + [BACKSLASH])
            && HasGrid(r) == HasGrid(d) == HasGrid(l)
            && (HasGrid(l) ==> d.entries == r.entries[i := r.entries[i].(grid := d.entries[i].grid)])
            && (HasGrid(l) ==>
                 d.entries[i].grid ==
                 Some(r.entries[i].grid.value.(input := r.entries[i].grid.value.input + Typed([BACKSLASH]))))
            && (!HasGrid(l) ==> d.entries == r.entries)
  {
    hide Typed;
    if HasGrid(l) {
      var o := LastEntry(l).output;
      var m := Min(n, Min(l.recent, |o|));
      assert (o + [BACKSLASH])[..|o| - m] == o[..|o| - m];
    }
  }

  /** What the program makes of the stream: the pending event happens before the next call. */
  function Settling(s: Spec, bytes: seq<byte>): Ledger {
    Flush(SpecRun(Flush(s), bytes)).ledger
  }

  /** A SPLIT TERMINATOR MISROUTES, EXACTLY WHEN. A cut between ESC and backslash misroutes the backslash exactly when
    the event attaches or takes away the grid, whatever follows in the call. */
  lemma SplitTerminatorMisroutesExactlyWhen(em: Emulator, t: TermState, s: Spec, rest: seq<byte>, now: nat)
    requires Agrees(em, t, s) && s.pending.Some? && Counted(s)
    ensures var r := TerminalModel.Feed(em, t, [BACKSLASH] + rest, now);
            && r.Fed? && Same(em, r.state, Settling(s, [BACKSLASH] + rest))
            && (SameRouting(Settling(s, [BACKSLASH] + rest), Flush(SpecRun(s, [BACKSLASH] + rest)).ledger)
                <==> HasGrid(s.ledger) == s.pending.value.event.Preexec?)
  {
    hide *;
    var bytes, same := [BACKSLASH] + rest, HasGrid(s.ledger) == s.pending.value.event.Preexec?;
    SplitFeeds(em, t, s, bytes, now);
    var a, b := SpecRun(Flush(s), [BACKSLASH]), SpecRun(s, [BACKSLASH]);
    BackslashIs(s);
    EventFirst(s.ledger, s.pending.value.event, s.pending.value.frameLength);
    RunApart(a, b, rest, same);
    SpecRunConcatenates(Flush(s), [BACKSLASH], rest);
    SpecRunConcatenates(s, [BACKSLASH], rest);
    FlushApart(SpecRun(a, rest), SpecRun(b, rest), same);
    SettlingIs(s, bytes);
    ApartIs(Settling(s, bytes), Flush(SpecRun(s, bytes)).ledger, same);
  }

  lemma SettlingIs(s: Spec, bytes: seq<byte>)
    ensures Settling(s, bytes) == Flush(SpecRun(Flush(s), bytes)).ledger
  {
  }

  /** Behind a pending event no frame is in progress, so the next call completes. */
  lemma SplitFeeds(em: Emulator, t: TermState, s: Spec, bytes: seq<byte>, now: nat)
    requires Agrees(em, t, s) && s.pending.Some? && Counted(s)
    ensures TerminalModel.Feed(em, t, bytes, now).Fed?
    ensures Agrees(em, TerminalModel.Feed(em, t, bytes, now).state, SpecRun(Flush(s), bytes))
    ensures Same(em, TerminalModel.Feed(em, t, bytes, now).state, Settling(s, bytes))
  {
    hide *;
    AgreesOnCore(em, t, s);
    AwareIsSane(s.clock);
    PendingIsOver(s);
    FeedPanicsExactlyWhen(em, t, bytes, now);
    FlushedAgrees(em, t, s);
    FlushSettles(s);
    FeedRefines(em, t, Flush(s), bytes, now);
    AgreesIs(em, TerminalModel.Feed(em, t, bytes, now).state, SpecRun(Flush(s), bytes));
    SettlingIs(s, bytes);
  }

  lemma PendingIsOver(s: Spec)
    requires Counted(s) && s.pending.Some?
    ensures !s.clock.core.isOurs
  {
  }

  // ---- the captured output ----

  /** Where the output of one block has a backslash too many: behind `front`. */
  datatype Leak = Nowhere | Behind(block: nat, front: seq<byte>)

  function Inserted(o: seq<byte>, n: nat): seq<byte>
    requires n <= |o|
  {
    (o[..n] + [BACKSLASH]) + o[n..]
  }

  predicate LeaksAt(a: Ledger, b: Ledger, leak: Leak) {
    && |a.entries| == |b.entries|
    && (leak.Behind? ==>
         && leak.block < |a.entries| && leak.front <= b.entries[leak.block].output
         && a.entries[leak.block].output == Inserted(b.entries[leak.block].output, |leak.front|))
    && forall j :: 0 <= j < |a.entries| && (leak.Behind? ==> j != leak.block) ==>
         a.entries[j].output == b.entries[j].output
  }

  /** The two count the bytes since the latest event alike, except for a backslash before all of them. */
  predicate Twins(a: Ledger, b: Ledger, leak: Leak) {
    && Parallel(a, b) && LeaksAt(a, b, leak)
    && (a.recent == b.recent || a.recent == b.recent + 1)
    && (HasGrid(b) && leak.Behind? && leak.block == |b.entries| - 1 ==>
        b.recent <= |LastEntry(b).output| - |leak.front|)
  }

  lemma DeliverTwins(a: Ledger, b: Ledger, bytes: seq<byte>, leak: Leak)
    requires Twins(a, b, leak)
    ensures Twins(Deliver(a, bytes), Deliver(b, bytes), leak)
    ensures Deliver(a, bytes).recent == a.recent + |bytes| && Deliver(b, bytes).recent == b.recent + |bytes|
  {
    hide Typed;
    if HasGrid(b) && leak.Behind? && leak.block == |b.entries| - 1 {
      var o := LastEntry(b).output;
      assert (o + bytes)[..|leak.front|] == o[..|leak.front|]
             && (o + bytes)[|leak.front|..] == o[|leak.front|..] + bytes;
      assert Inserted(o, |leak.front|) + bytes == Inserted(o + bytes, |leak.front|);
    }
  }

  lemma RetractTwins(a: Ledger, b: Ledger, n: nat, leak: Leak)
    requires Twins(a, b, leak) && (a.recent != b.recent ==> n <= b.recent)
    ensures Parallel(Retract(a, n), Retract(b, n)) && LeaksAt(Retract(a, n), Retract(b, n), leak)
  {
    if HasGrid(b) && leak.Behind? && leak.block == |b.entries| - 1 {
      var o := LastEntry(b).output;
      var left := |o| - Min(n, Min(b.recent, |o|));
      assert o[..left][..|leak.front|] == o[..|leak.front|] && o[..left][|leak.front|..] == o[|leak.front|..left];
      assert Inserted(o, |leak.front|)[..left + 1] == Inserted(o[..left], |leak.front|);
    }
  }

  lemma HappenLeaks(a: Ledger, b: Ledger, e: DcsEvent, leak: Leak)
    requires Parallel(a, b) && LeaksAt(a, b, leak)
    ensures LeaksAt(Happen(a, e), Happen(b, e), leak)
  {
    hide MarkNow, Inserted;
  }

  lemma EffectTwins(a: Ledger, b: Ledger, e: DcsEvent, n: nat, leak: Leak)
    requires Twins(a, b, leak) && (a.recent != b.recent ==> n <= b.recent)
    ensures Twins(Effect(a, e, n), Effect(b, e, n), leak) && Effect(a, e, n).recent == Effect(b, e, n).recent == 0
  {
    hide *;
    RetractTwins(a, b, n, leak);
    HappenParallel(Retract(a, n), Retract(b, n), e);
    HappenLeaks(Retract(a, n), Retract(b, n), e, leak);
    EffectIs(a, e, n);
    EffectIs(b, e, n);
    FreshTwins(Happen(Retract(a, n), e), Happen(Retract(b, n), e), leak);
  }

  lemma FreshTwins(a: Ledger, b: Ledger, leak: Leak)
    requires Parallel(a, b) && LeaksAt(a, b, leak)
    ensures Twins(a.(recent := 0), b.(recent := 0), leak)
  {
    hide Inserted;
  }

  /** Two references side by side: while their counts differ, every frame in progress began behind the backslash. */
  predicate SideBySide(a: Spec, b: Spec, leak: Leak) {
    && Abreast(a, b) && Twins(a.ledger, b.ledger, leak)
    && (a.ledger.recent != b.ledger.recent ==>
         && Begun(b.clock, b.ledger.recent)
         && (b.pending.Some? ==> b.pending.value.frameLength <= b.ledger.recent))
  }

  lemma SideBySideIs(a: Spec, b: Spec, leak: Leak)
    ensures SideBySide(a, b, leak) <==>
            && Abreast(a, b) && Twins(a.ledger, b.ledger, leak)
            && (a.ledger.recent != b.ledger.recent ==>
                 && Begun(b.clock, b.ledger.recent)
                 && (b.pending.Some? ==> b.pending.value.frameLength <= b.ledger.recent))
  {
    hide Abreast, Twins, Begun;
  }

  lemma BegunIs(c: Clock, at: nat)
    requires Begun(c, at)
    ensures c.core.isOurs ==> c.frameLength <= at
  {
  }

  lemma OnlyOursEmit(c: Core, x: byte)
    ensures Emit(c, x).Some? ==> c.isOurs
  {
    hide ParseBody;
  }

  lemma FlushBeside(a: Spec, b: Spec, leak: Leak)
    requires SideBySide(a, b, leak)
    ensures SideBySide(Flush(a), Flush(b), leak)
  {
    SideBySideIs(a, b, leak);
    SideBySideIs(Flush(a), Flush(b), leak);
    hide Twins, Begun, Effect;
    if a.pending.Some? { EffectTwins(a.ledger, b.ledger, a.pending.value.event, a.pending.value.frameLength, leak); }
  }

  lemma StepBeside(a: Spec, b: Spec, x: byte, leak: Leak)
    requires SideBySide(a, b, leak)
    ensures SideBySide(SpecStep(a, x), SpecStep(b, x), leak)
  {
    hide *;
    SideBySideIs(a, b, leak);
    SideBySideIs(SpecStep(a, x), SpecStep(b, x), leak);
    AbreastIs(a, b);
    AbreastIs(SpecStep(a, x), SpecStep(b, x));
    StepIs(a, x);
    StepIs(b, x);
    OnlyOursEmit(a.clock.core, x);
    if a.pending.Some? && x == BACKSLASH {
      DeliverTwins(a.ledger, b.ledger, [x], leak);
      EffectTwins(Deliver(a.ledger, [x]), Deliver(b.ledger, [x]), a.pending.value.event,
                  a.pending.value.frameLength + 1, leak);
    } else {
      FlushBeside(a, b, leak);
      var f, g := Flush(a), Flush(b);
      SideBySideIs(f, g, leak);
      FlushSettles(a);
      FlushSettles(b);
      DeliverTwins(f.ledger, g.ledger, [x], leak);
      if f.ledger.recent != g.ledger.recent {
        BegunIs(g.clock, g.ledger.recent);
        BegunStep(g.clock, x, g.ledger.recent);
      }
      if Emit(a.clock.core, x).Some? {
        EffectTwins(Deliver(f.ledger, [x]), Deliver(g.ledger, [x]), Emit(a.clock.core, x).value,
                    a.clock.frameLength + 1, leak);
      }
    }
  }

  lemma {:induction false} RunBeside(a: Spec, b: Spec, bs: seq<byte>, leak: Leak)
    requires SideBySide(a, b, leak)
    ensures SideBySide(SpecRun(a, bs), SpecRun(b, bs), leak)
    decreases |bs|
  {
    if |bs| > 0 {
      StepBeside(a, b, bs[0], leak);
      hide SideBySide, SpecStep;
      RunBeside(SpecStep(a, bs[0]), SpecStep(b, bs[0]), bs[1..], leak);
    }
  }

  lemma BackslashOutputs(l: Ledger, e: DcsEvent, n: nat)
    ensures var a, b := Effect(l, e, n), Effect(Deliver(l, [BACKSLASH]), e, n + 1);
            Parallel(a, b) && LeaksAt(a, b, Nowhere) && HasGrid(a) == e.Preexec? && a.recent == b.recent == 0
  {
    hide *;
    var r, d := Retract(l, n), Retract(Deliver(l, [BACKSLASH]), n + 1);
    EffectIs(l, e, n);
    EffectIs(Deliver(l, [BACKSLASH]), e, n + 1);
    RetractedParallel(l, n);
    RetractedAlike(l, n);
    HappenParallel(r, d, e);
    HappenLeaks(r, d, e, Nowhere);
    HappenShape(r, e);
    Uncount(Happen(r, e), Happen(d, e));
  }

  lemma Uncount(a: Ledger, b: Ledger)
    requires Parallel(a, b) && LeaksAt(a, b, Nowhere)
    ensures Parallel(a.(recent := 0), b.(recent := 0)) && LeaksAt(a.(recent := 0), b.(recent := 0), Nowhere)
    ensures HasGrid(a.(recent := 0)) == HasGrid(a)
  {
  }

  lemma RetractedAlike(l: Ledger, n: nat)
    ensures LeaksAt(Retract(l, n), Retract(Deliver(l, [BACKSLASH]), n + 1), Nowhere)
  {
    BackslashRetracted(l, n);
    hide Retract, Deliver, Typed;
  }

  /** Where the backslash goes as output. */
  function LeakOf(l: Ledger): Leak {
    if HasGrid(l) then Behind(|l.entries| - 1, LastEntry(l).output) else Nowhere
  }

  lemma BackslashTwins(a: Ledger, b: Ledger)
    requires Parallel(a, b) && LeaksAt(a, b, Nowhere) && a.recent == b.recent == 0
    ensures Twins(Deliver(a, [BACKSLASH]), b, LeakOf(a)) && Deliver(a, [BACKSLASH]).recent == 1
  {
    hide Typed;
    if HasGrid(a) {
      var o := LastEntry(a).output;
      assert Inserted(o, |o|) == o + [BACKSLASH];
    }
  }

  lemma BackslashBegins(s: Spec)
    requires Counted(s) && s.pending.Some?
    ensures Begun(Tick(s.clock, BACKSLASH), 0) && Emit(s.clock.core, BACKSLASH).None?
  {
    AwareStep(s.clock, BACKSLASH);
    hide ParseBody;
  }

  lemma BackslashBeside(s: Spec)
    requires s.pending.Some? && Counted(s)
    ensures SideBySide(SpecRun(Flush(s), [BACKSLASH]), SpecRun(s, [BACKSLASH]), LeakOf(Flush(s).ledger))
    ensures HasGrid(Flush(s).ledger) == s.pending.value.event.Preexec?
  {
    hide *;
    var e, n := s.pending.value.event, s.pending.value.frameLength;
    var a, b := SpecRun(Flush(s), [BACKSLASH]), SpecRun(s, [BACKSLASH]);
    BackslashIs(s);
    FlushIs(s);
    BackslashBegins(s);
    BackslashOutputs(s.ledger, e, n);
    BackslashTwins(Flush(s).ledger, b.ledger);
    AbreastIs(a, b);
    SideBySideIs(a, b, LeakOf(Flush(s).ledger));
  }

  lemma FlushIs(s: Spec)
    requires s.pending.Some?
    ensures Flush(s).ledger == Effect(s.ledger, s.pending.value.event, s.pending.value.frameLength)
  {
    hide Effect;
  }

  lemma InsideBehindBackslash(s: Spec, rest: seq<byte>)
    requires s.pending.Some? && Counted(s)
    ensures FramesInside(s.clock, [BACKSLASH] + rest, 0)
  {
    BackslashBegins(s);
    hide Begun, Tick, Emit, Counted;
    BegunLater(Tick(s.clock, BACKSLASH), 0, 1);
    BegunFramesAreInside(Tick(s.clock, BACKSLASH), rest, 1);
    assert ([BACKSLASH] + rest)[1..] == rest;
  }

  /** Storing one ledger's outputs is storing the other's, exactly when the leak does not show. */
  lemma LeakShowsExactlyWhen(t: TermState, a: Ledger, b: Ledger, leak: Leak)
    requires Kept(t, a) && LeaksAt(a, b, leak)
    ensures Kept(t, b) <==> leak.Nowhere? || Blocks.Newlines(leak.front) >= Blocks.MAX_BLOCK_OUTPUT_LINES
  {
    KeptIs(t, a);
    KeptIs(t, b);
    hide KeptAs, Blocks.CutAfter, Blocks.Newlines;
    if leak.Nowhere? {
      assert Outputs(a) == Outputs(b);
    } else {
      var i, o := leak.block, b.entries[leak.block].output;
      assert Outputs(b) == Outputs(a)[i := o];
      KeptTogether(t, Outputs(a), Outputs(b), i);
      assert o == leak.front + o[|leak.front|..];
      NoNewline();
      Blocks.InsertionShowsExactlyWhen(leak.front, [BACKSLASH], o[|leak.front|..], Blocks.MAX_BLOCK_OUTPUT_LINES);
    }
  }

  lemma NoNewline()
    ensures Blocks.Newlines([BACKSLASH]) == 0
  {
    assert [BACKSLASH][1..] == [];
  }

  /** A SPLIT TERMINATOR LEAKS, EXACTLY WHEN. A cut between ESC and backslash leaves captured outputs right exactly when
    the event is no Preexec, or the output of the block behind it had its 5000 newlines already, whatever follows. */
  lemma SplitTerminatorLeaksExactlyWhen(em: Emulator, t: TermState, s: Spec, rest: seq<byte>, now: nat)
    requires Agrees(em, t, s) && s.pending.Some? && Counted(s) && Kept(t, Flush(s).ledger)
    ensures s.pending.value.event.Preexec? ==> |Flush(s).ledger.entries| > 0
    ensures var r := TerminalModel.Feed(em, t, [BACKSLASH] + rest, now);
            && r.Fed?
            && (Kept(r.state, Flush(SpecRun(s, [BACKSLASH] + rest)).ledger) <==>
                s.pending.value.event.Preexec? ==>
                  Blocks.Newlines(LastEntry(Flush(s).ledger).output) >= Blocks.MAX_BLOCK_OUTPUT_LINES)
  {
    hide *;
    var bytes, f := [BACKSLASH] + rest, Flush(s);
    var leak := LeakOf(f.ledger);
    SplitFeeds(em, t, s, bytes, now);
    FlushedAgrees(em, t, s);
    FlushSettles(s);
    InsideBehindBackslash(s, rest);
    FeedKeeps(em, t, f, bytes, now);
    BackslashBeside(s);
    LeakIs(f.ledger);
    RunBeside(SpecRun(f, [BACKSLASH]), SpecRun(s, [BACKSLASH]), rest, leak);
    SpecRunConcatenates(f, [BACKSLASH], rest);
    SpecRunConcatenates(s, [BACKSLASH], rest);
    FlushBeside(SpecRun(f, bytes), SpecRun(s, bytes), leak);
    SideBySideIs(Flush(SpecRun(f, bytes)), Flush(SpecRun(s, bytes)), leak);
    TwinsLeak(Flush(SpecRun(f, bytes)).ledger, Flush(SpecRun(s, bytes)).ledger, leak);
    LeakShowsExactlyWhen(TerminalModel.Feed(em, t, bytes, now).state, Flush(SpecRun(f, bytes)).ledger,
                         Flush(SpecRun(s, bytes)).ledger, leak);
  }

  lemma LeakIs(l: Ledger)
    ensures HasGrid(l) ==> |l.entries| > 0
    ensures LeakOf(l) == if HasGrid(l) then Behind(|l.entries| - 1, LastEntry(l).output) else Nowhere
  {
  }

  lemma TwinsLeak(a: Ledger, b: Ledger, leak: Leak)
    requires Twins(a, b, leak)
    ensures LeaksAt(a, b, leak)
  {
    hide Parallel, LeaksAt;
  }

  // ---- on a real stream ----

  /** Header, body and the ESC of the terminator: the event is pending. */
  lemma FrameIsPending(s: Spec, body: seq<byte>)
    requires s.pending.None? && Counted(s) && Idle(s.clock.core) && Endless(body) && ParseBody(Collected(body)).Some?
    ensures var front := (DCS + OURS) + body; var r := SpecRun(s, front + [ESC]);
            && r.pending == Some(Pending(ParseBody(Collected(body)).value, |front| + 1))
            && r.ledger == Deliver(s.ledger, front + [ESC])
  {
    hide *;
    var front, k := (DCS + OURS) + body, Tracker(s.clock.core, None, None);
    HeaderIsRead(k, 0);
    HeaderTicks(s.clock);
    var k1, c1 := TrackAll(k, DCS + OURS, 0), TickAll(s.clock, DCS + OURS);
    BodyIsRead(k1, [], body, 4);
    assert [] + body == body;
    HeaderLength();
    OursEndsClosed();
    LocatingConcatenates(k, DCS + OURS, body, 0);
    NoneLocated(k, front);
    QuietRun(s, front);
    TicksConcatenate(s.clock, DCS + OURS, body);
    TrackingRuns(k, DCS + OURS, 0);
    SpecRunsClock(s, DCS + OURS);
    SpecRunsCore(s, DCS + OURS);
    BodyTicks(c1, [], body);
    TrackingRuns(k, front, 0);
    var u := SpecRun(s, front);
    ReadingEnds(u.clock.core, body);
    SpecRunConcatenates(s, front, [ESC]);
    StepIs(u, ESC);
    FlushSettles(u);
    OneStep(u, ESC);
    DeliverConcatenates(s.ledger, front, [ESC]);
  }

  lemma OursEndsClosed()
    ensures !EndsOpen(DCS + OURS)
  {
  }

  lemma ReadingEnds(c: Core, body: seq<byte>)
    requires c == Reading(body)
    ensures Emit(c, ESC) == ParseBody(Collected(body))
  {
    hide ParseBody, Collected;
  }

  lemma OneStep(s: Spec, b: byte)
    ensures SpecRun(s, [b]) == SpecStep(s, b)
  {
    hide SpecStep;
    assert [b][1..] == [];
  }

  /** The announcement of a command, without the last byte of its terminator. */
  function Cut(command: seq<byte>): seq<byte> {
    ((DCS + OURS) + AnnouncedBody(command)) + [ESC]
  }

  function AnnouncedBody(command: seq<byte>): seq<byte> {
    WirePrinter.HexEncode(WirePrinter.Payload(WirePrinter.PreexecMessage(command)))
  }

  lemma AnnouncedBodyIs(command: seq<byte>)
    ensures var body := AnnouncedBody(command);
            && Endless(body)
            && ParseBody(Collected(body)) == Some(Preexec(OrEmpty(IfText(Some(WirePrinter.AwkText(command))))))
    ensures Announcement(command, SevenBit) == Cut(command) + [BACKSLASH]
  {
    var item := Message(WirePrinter.PreexecMessage(command), SevenBit);
    PutIsGood(item);
    HeardIs(command, 0);
    var body := AnnouncedBody(command);
    assert Stream.Put(item) == Frame(body, SevenBit);
    FrameIs(body, SevenBit);
    hide WirePrinter.HexEncode, WirePrinter.Payload, ParseBody, Collected;
    assert [ESC, BACKSLASH] == [ESC] + [BACKSLASH];
    Associate((DCS + OURS) + body, [ESC], [BACKSLASH]);
  }

  lemma NewIsInStep(em: Emulator, cols: nat, rows: nat)
    ensures InStep(em, New(cols, rows), NewSpec(cols, rows)) && Idle(NewSpec(cols, rows).clock.core)
  {
    hide *;
    InitiallyAgrees(em, cols, rows);
    NewIsSettled(cols, rows);
    NewIsReady(cols, rows);
    SettledIs(NewSpec(cols, rows));
    InStepIs(em, New(cols, rows), NewSpec(cols, rows));
  }

  /** The first block of a new terminal, its Preexec taken before the backslash. */
  lemma FirstBackslash(cols: nat, rows: nat, front: seq<byte>, command: seq<byte>, n: nat)
    ensures var l := Deliver(Effect(Deliver(NewSpec(cols, rows).ledger, front), Preexec(command), n), [BACKSLASH]);
            && |l.entries| == 1 && HasGrid(l) && l.outside == front
            && l.entries[0].grid == Some(GridState(cols, rows, [Resized(cols, rows), Byte(BACKSLASH)]))
            && l.entries[0].output == [BACKSLASH]
  {
    assert [] + front == front;
    assert [Resized(cols, rows)] + Typed([BACKSLASH]) == [Resized(cols, rows), Byte(BACKSLASH)];
  }

  /** THE LEAKED BACKSLASH. A new terminal gets the announcement of a command, cut between ESC and backslash. The
    backslash becomes the command's first input and its first output; in one call it is neither. */
  lemma AnnouncementLeaksItsBackslash(em: Emulator, cols: nat, rows: nat, command: seq<byte>, n0: nat, n1: nat)
    ensures Announcement(command, SevenBit) == Cut(command) + [BACKSLASH]
    ensures var first := TerminalModel.Feed(em, New(cols, rows), Cut(command), n0);
            && first.Fed?
            && var r := TerminalModel.Feed(em, first.state, [BACKSLASH], n1);
            && r.Fed? && |r.state.store.blocks| == 1
            && r.state.store.blocks[0].grid == Some(GridState(cols, rows, [Resized(cols, rows), Byte(BACKSLASH)]))
            && r.state.store.blocks[0].output == [BACKSLASH]
            && Outside(r.state.global) == Cut(command)
  {
    hide *;
    var t, s, body, front := New(cols, rows), NewSpec(cols, rows), AnnouncedBody(command), Cut(command);
    AnnouncedBodyIs(command);
    CutIs(command);
    NewIsInStep(em, cols, rows);
    InStepIs(em, t, s);
    FrameIsPending(s, body);
    var f := SpecRun(s, front);
    FirstCall(em, t, s, front, n0);
    var u := TerminalModel.Feed(em, t, front, n0).state;
    assert [BACKSLASH] + [] == [BACKSLASH];
    SplitFeeds(em, u, f, [BACKSLASH], n1);
    InsideBehindBackslash(f, []);
    FlushedAgrees(em, u, f);
    FlushSettles(f);
    FeedKeeps(em, u, Flush(f), [BACKSLASH], n1);
    BackslashIs(f);
    var a := SpecRun(Flush(f), [BACKSLASH]);
    FlushSettles(a);
    SettlingIs(f, [BACKSLASH]);
    FirstBackslash(cols, rows, front, f.pending.value.event.command, f.pending.value.frameLength);
    Stored(em, TerminalModel.Feed(em, u, [BACKSLASH], n1).state, a.ledger);
  }

  lemma CutIs(command: seq<byte>)
    ensures Cut(command) == ((DCS + OURS) + AnnouncedBody(command)) + [ESC]
  {
  }

  lemma FirstCall(em: Emulator, t: TermState, s: Spec, bytes: seq<byte>, now: nat)
    requires InStep(em, t, s) && Idle(s.clock.core)
    ensures var r := TerminalModel.Feed(em, t, bytes, now);
            r.Fed? && Agrees(em, r.state, SpecRun(s, bytes)) && Kept(r.state, Flush(SpecRun(s, bytes)).ledger)
    ensures Counted(SpecRun(s, bytes))
  {
    hide *;
    InStepIs(em, t, s);
    AgreesOnCore(em, t, s);
    IdleBegins(s.clock);
    BegunFramesAreInside(s.clock, bytes, 0);
    WholeFramesNeverPanic(em, t, s.clock, bytes, now);
    FlushSettles(s);
    FeedRefines(em, t, s, bytes, now);
    FeedKeeps(em, t, s, bytes, now);
    RunIsCounted(s, bytes);
  }

  lemma IdleBegins(c: Clock)
    requires Aware(c) && Idle(c.core)
    ensures Begun(c, 0)
  {
  }

  /** One short output, as it is stored. */
  lemma Stored(em: Emulator, t: TermState, l: Ledger)
    requires Same(em, t, l) && Kept(t, l) && |l.entries| == 1 && HasGrid(l) && l.entries[0].output == [BACKSLASH]
    ensures |t.store.blocks| == 1 && t.store.blocks[0].grid == l.entries[0].grid
    ensures t.store.blocks[0].output == [BACKSLASH] && Outside(t.global) == l.outside
  {
    hide Blocks.Inv, Outside, Frozen;
    assert SameBlock(em, t.store.blocks[0], l.entries[0]);
    assert Outputs(l)[0] == [BACKSLASH];
    Blocks.CutIsBounded([BACKSLASH], Blocks.MAX_BLOCK_OUTPUT_LINES);
    NoNewline();
  }
}
