/** The reference meaning of a byte stream, one byte at a time, with no calls, slices or offsets in it.

  A byte belongs to the running block's grid if one is attached, to the global terminal otherwise. An event takes
  effect after the last byte of its terminator. */
module Routing {
  import opened Bytes
  import opened Vte
  import opened Wire
  import opened Sniffer
  import opened Grid

  /** Where a block boundary was measured: on a block's grid, or below the scrollback of the global terminal. */
  datatype Mark = Inside(input: seq<GridInput>) | Below(input: seq<GridInput>)

  /** `grid` is all its grid ever received, kept after sealing; `output` is that without event frames; the marks tell
    where its first and its last line were measured. */
  datatype Entry = Entry(
    id: nat,
    command: seq<byte>,
    workingDirectory: Option<seq<byte>>,
    gitBranch: Option<seq<byte>>,
    exitCode: Option<int>,
    running: bool,
    grid: Option<GridState>,
    output: seq<byte>,
    startMark: Mark,
    endMark: Option<Mark>)

  /** `outside` are the bytes of no block, `seen` the same with the resizes between them; `recent` counts the bytes
    since the last event took effect. */
  datatype Ledger = Ledger(
    entries: seq<Entry>, nextId: nat, outside: seq<byte>, seen: seq<GridInput>, recent: nat, cols: nat, rows: nat)

  predicate HasGrid(l: Ledger) {
    |l.entries| > 0 && l.entries[|l.entries| - 1].running && l.entries[|l.entries| - 1].grid.Some?
  }

  function UpdateLast(es: seq<Entry>, e: Entry): seq<Entry>
    requires |es| > 0
  {
    es[|es| - 1 := e]
  }

  function Deliver(l: Ledger, bytes: seq<byte>): Ledger {
    var counted := l.(recent := l.recent + |bytes|);
    if HasGrid(l) then
      var e := l.entries[|l.entries| - 1];
      counted.(entries := UpdateLast(l.entries, e.(
        grid := Some(e.grid.value.(input := e.grid.value.input + Typed(bytes))), output := e.output + bytes)))
    else counted.(outside := l.outside + bytes, seen := l.seen + Typed(bytes))
  }

  /** The last `n` bytes were an event frame: they are no output. */
  function Retract(l: Ledger, n: nat): Ledger {
    if HasGrid(l) then
      var e := l.entries[|l.entries| - 1];
      var m := Min(n, Min(l.recent, |e.output|));
      l.(entries := UpdateLast(l.entries, e.(output := e.output[..|e.output| - m])))
    else l
  }

  function SealLast(es: seq<Entry>, exitCode: Option<int>, mark: Mark): seq<Entry> {
    if |es| > 0 && es[|es| - 1].running then
      UpdateLast(es, es[|es| - 1].(running := false, exitCode := exitCode, endMark := Some(mark)))
    else es
  }

  function Open(l: Ledger, pwd: Option<seq<byte>>, branch: Option<seq<byte>>, mark: Mark): Ledger {
    l.(entries := l.entries + [Entry(l.nextId, [], pwd, branch, None, true, None, [], mark, None)],
       nextId := l.nextId + 1)
  }

  /** The screen a boundary is measured on now. */
  function MarkNow(l: Ledger): Mark {
    if HasGrid(l) then Inside(l.entries[|l.entries| - 1].grid.value.input) else Below(l.seen)
  }

  function Happen(l: Ledger, e: DcsEvent): Ledger {
    var mark := MarkNow(l);
    match e
    case Precmd(pwd, branch) => Open(l.(entries := SealLast(l.entries, None, mark)), pwd, branch, mark)
    case Preexec(command) =>
      var ready := if |l.entries| > 0 && l.entries[|l.entries| - 1].running then l else Open(l, None, None, mark);
      var b := ready.entries[|ready.entries| - 1];
      var grid := if b.grid.Some? then b.grid else Some(GridState(l.cols, l.rows, [Resized(l.cols, l.rows)]));
      ready.(entries := UpdateLast(ready.entries, b.(command := command, grid := grid, startMark := mark)))
    case CommandFinished(code) => l.(entries := SealLast(l.entries, Some(code), mark))
  }

  function Effect(l: Ledger, e: DcsEvent, frameLength: nat): Ledger {
    Happen(Retract(l, frameLength), e).(recent := 0)
  }

  // ---- the clock: where in a frame the stream is ----

  /** Bytes since the last unclaimed ESC, itself included; bytes of the frame in progress. */
  datatype Clock = Clock(core: Core, sinceEsc: nat, frameLength: nat)

  function Since(c: Clock, b: byte): nat {
    if b == ESC then 1 else if c.sinceEsc > 0 then c.sinceEsc + 1 else 0
  }

  function Tick(c: Clock, b: byte): Clock {
    if Claims(c.core, b) then Clock(Step(c.core, b), 0, Since(c, b))
    else Clock(Step(c.core, b), Since(c, b), c.frameLength + 1)
  }

  function TickAll(c: Clock, bs: seq<byte>): Clock
    decreases |bs|
  {
    if |bs| == 0 then c else TickAll(Tick(c, bs[0]), bs[1..])
  }

  // ---- the reference machine ----

  datatype Pending = Pending(event: DcsEvent, frameLength: nat)

  /** `pending` holds an event whose terminator may still get its backslash. */
  datatype Spec = Spec(clock: Clock, pending: Option<Pending>, ledger: Ledger)

  function NewSpec(cols: nat, rows: nat): Spec {
    Spec(Clock(START, 0, 0), None, Ledger([], 1, [], [Resized(cols, rows)], 0, cols, rows))
  }

  function Flush(s: Spec): Spec {
    if s.pending.None? then s
    else Spec(s.clock, None, Effect(s.ledger, s.pending.value.event, s.pending.value.frameLength))
  }

  function Consume(s: Spec, b: byte): Spec {
    var clock, ledger := Tick(s.clock, b), Deliver(s.ledger, [b]);
    match Emit(s.clock.core, b)
    case None => Spec(clock, None, ledger)
    case Some(e) =>
      var length := s.clock.frameLength + 1;
      if b == ESC then Spec(clock, Some(Pending(e, length)), ledger) else Spec(clock, None, Effect(ledger, e, length))
  }

  function SpecStep(s: Spec, b: byte): Spec {
    if s.pending.Some? && b == BACKSLASH then
      Spec(Tick(s.clock, b), None,
           Effect(Deliver(s.ledger, [b]), s.pending.value.event, s.pending.value.frameLength + 1))
    else Consume(Flush(s), b)
  }

  function SpecRun(s: Spec, bs: seq<byte>): Spec
    decreases |bs|
  {
    if |bs| == 0 then s else SpecRun(SpecStep(s, bs[0]), bs[1..])
  }

  lemma {:induction false} SpecRunConcatenates(s: Spec, a: seq<byte>, b: seq<byte>)
    ensures SpecRun(s, a + b) == SpecRun(SpecRun(s, a), b)
    decreases |a|
  {
    hide SpecStep;
    if |a| == 0 {
      assert a + b == b;
    } else {
      assert (a + b)[1..] == a[1..] + b;
      SpecRunConcatenates(SpecStep(s, a[0]), a[1..], b);
    }
  }

  // ---- the machine in bulk ----

  lemma DeliverConcatenates(l: Ledger, a: seq<byte>, b: seq<byte>)
    ensures Deliver(Deliver(l, a), b) == Deliver(l, a + b)
  {
    if HasGrid(l) {
      var e := l.entries[|l.entries| - 1];
      var g := e.grid.value.input;
      assert Typed(a + b) == Typed(a) + Typed(b);
      assert (g + Typed(a)) + Typed(b) == g + (Typed(a) + Typed(b));
      assert (e.output + a) + b == e.output + (a + b);
    } else {
      assert (l.outside + a) + b == l.outside + (a + b);
      assert Typed(a + b) == Typed(a) + Typed(b);
      assert (l.seen + Typed(a)) + Typed(b) == l.seen + (Typed(a) + Typed(b));
    }
  }

  lemma DeliverNothing(l: Ledger)
    ensures Deliver(l, []) == l
  {
    if HasGrid(l) {
      var e := l.entries[|l.entries| - 1];
      assert e.output + [] == e.output && e.grid.value.input + Typed([]) == e.grid.value.input;
    } else {
      assert l.outside + [] == l.outside && l.seen + Typed([]) == l.seen;
    }
  }

  lemma QuietStep(s: Spec, b: byte)
    requires s.pending.None? && Emit(s.clock.core, b).None?
    ensures SpecStep(s, b) == Spec(Tick(s.clock, b), None, Deliver(s.ledger, [b]))
    ensures Tick(s.clock, b).core == Step(s.clock.core, b)
  {
  }

  /** Where no event completes, the machine only delivers. */
  lemma {:induction false} QuietRun(s: Spec, bs: seq<byte>)
    requires s.pending.None? && Events(s.clock.core, bs) == []
    ensures SpecRun(s, bs) == Spec(TickAll(s.clock, bs), None, Deliver(s.ledger, bs))
    ensures TickAll(s.clock, bs).core == Run(s.clock.core, bs)
    decreases |bs|
  {
    hide Emit, Deliver, Claims, Step, SpecStep, Tick;
    if |bs| == 0 {
      DeliverNothing(s.ledger);
    } else {
      assert Emit(s.clock.core, bs[0]).None?;
      QuietStep(s, bs[0]);
      QuietRun(SpecStep(s, bs[0]), bs[1..]);
      DeliverConcatenates(s.ledger, [bs[0]], bs[1..]);
      assert [bs[0]] + bs[1..] == bs;
    }
  }

  /** Input that does not begin with a backslash settles a pending event first. */
  lemma PendingSettles(s: Spec, bs: seq<byte>)
    requires s.pending.Some? && |bs| > 0 ==> bs[0] != BACKSLASH
    ensures Flush(SpecRun(s, bs)) == Flush(SpecRun(Flush(s), bs))
  {
    hide Effect, Consume;
  }
}
