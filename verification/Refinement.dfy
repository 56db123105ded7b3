/** `Terminal::feed` refines the bytewise reference machine, however the stream is cut. */
module Refinement {
  import opened Bytes
  import opened Wire
  import opened Sniffer
  import opened Grid
  import opened Routing
  import opened TerminalModel
  import Blocks

  // ---- when a terminal state matches a ledger ----

  /** A sealed block's snapshot shows what its grid received, under whatever the emulator makes of it. */
  function Shot(em: Emulator, grid: Option<GridState>): Option<Snapshot<RawCellSnapshot>> {
    if grid.Some? then Some(Frozen(em(grid.value.input), grid.value.cols, grid.value.rows)) else None
  }

  ghost predicate SameBlock(em: Emulator, b: Blocks.Block<GridState>, e: Entry) {
    && b.id == e.id && b.command == e.command && b.isRunning == e.running && b.exitCode == e.exitCode
    && b.workingDirectory == e.workingDirectory && b.gitBranch == e.gitBranch
    && b.grid == (if e.running then e.grid else None)
    && b.frozen == (if e.running then None else Shot(em, e.grid))
  }

  /** Bytes of the global terminal that belong to no block. */
  function Outside(global: seq<Tagged>): seq<byte> {
    if |global| == 0 then []
    else
      var last := global[|global| - 1];
      Outside(global[..|global| - 1]) + if last.input.Byte? && !last.mirrored then [last.input.b] else []
  }

  /** Input of the global terminal that no block's grid got. */
  function Unmirrored(global: seq<Tagged>): seq<GridInput> {
    if |global| == 0 then []
    else
      var last := global[|global| - 1];
      Unmirrored(global[..|global| - 1]) + if last.mirrored then [] else [last.input]
  }

  predicate NoneMirrored(global: seq<Tagged>) {
    forall i :: 0 <= i < |global| ==> !global[i].mirrored
  }

  /** The line a mark stands for. */
  function LineAt(em: Emulator, m: Mark): (line: int)
    ensures I32_MIN <= line <= I32_MAX
  {
    match m
    case Inside(input) => WrapI32(em(input).cursorLine)
    case Below(input) => WrapI32(em(input).history + em(input).cursorLine)
  }

  /** The end line of a sealed block. */
  function EndAtMark(em: Emulator, e: Entry): int
    requires e.endMark.Some?
  {
    var used :=
      if e.grid.Some? then Some(UsedRows(em(e.grid.value.input), e.grid.value.cols, e.grid.value.rows)) else None;
    Blocks.SealedEnd(LineAt(em, e.startMark), used, LineAt(em, e.endMark.value))
  }

  ghost predicate SameLine(em: Emulator, b: Blocks.Block<GridState>, e: Entry) {
    && b.startLine == LineAt(em, e.startMark)
    && (!e.running ==> e.endMark.Some? && b.endLine == EndAtMark(em, e))
  }

  ghost predicate SameLines(em: Emulator, bs: seq<Blocks.Block<GridState>>, es: seq<Entry>) {
    |bs| == |es| && forall i :: 0 <= i < |es| ==> SameLine(em, bs[i], es[i])
  }

  /** As long as nothing was mirrored, the global terminal has seen exactly what is outside, and every block lies on the
    lines of the reference. */
  ghost predicate SameOutside(em: Emulator, t: TermState, l: Ledger) {
    && Unmirrored(t.global) == l.seen
    && (NoneMirrored(t.global) ==> SameLines(em, t.store.blocks, l.entries))
  }

  ghost predicate Same(em: Emulator, t: TermState, l: Ledger) {
    SameStore(em, t, l) && SameOutside(em, t, l)
  }

  ghost predicate SameStore(em: Emulator, t: TermState, l: Ledger) {
    && Blocks.Inv(t.store)
    && |t.store.blocks| == |l.entries|
    && (forall i :: 0 <= i < |l.entries| ==> SameBlock(em, t.store.blocks[i], l.entries[i]))
    && t.store.nextId == l.nextId
    && Outside(t.global) == l.outside
    && t.cols == l.cols && t.rows == l.rows
  }

  lemma {:induction false} OutsideConcatenates(a: seq<Tagged>, b: seq<Tagged>)
    ensures Outside(a + b) == Outside(a) + Outside(b)
    decreases |b|
  {
    if |b| == 0 {
      assert a + b == a;
    } else {
      assert (a + b)[..|a + b| - 1] == a + b[..|b| - 1];
      OutsideConcatenates(a, b[..|b| - 1]);
    }
  }

  lemma {:induction false} OutsideOfTag(bytes: seq<byte>, mirrored: bool)
    ensures Outside(Tag(bytes, mirrored)) == if mirrored then [] else bytes
    decreases |bytes|
  {
    if |bytes| > 0 {
      var front := bytes[..|bytes| - 1];
      assert Tag(bytes, mirrored)[..|bytes| - 1] == Tag(front, mirrored);
      OutsideOfTag(front, mirrored);
    }
  }

  lemma {:induction false} UnmirroredConcatenates(a: seq<Tagged>, b: seq<Tagged>)
    ensures Unmirrored(a + b) == Unmirrored(a) + Unmirrored(b)
    ensures NoneMirrored(a + b) ==> NoneMirrored(a) && NoneMirrored(b)
    decreases |b|
  {
    if |b| == 0 {
      assert a + b == a;
    } else {
      assert (a + b)[..|a + b| - 1] == a + b[..|b| - 1];
      UnmirroredConcatenates(a, b[..|b| - 1]);
    }
    assert forall i :: 0 <= i < |a| ==> (a + b)[i] == a[i];
    assert forall i :: 0 <= i < |b| ==> (a + b)[|a| + i] == b[i];
  }

  lemma TagLast(bytes: seq<byte>, mirrored: bool)
    requires |bytes| > 0
    ensures var n := |bytes| - 1; var all, front := Tag(bytes, mirrored), Tag(bytes[..n], mirrored);
            && |all| == n + 1 && all[..n] == front && all[n] == Tagged(Byte(bytes[n]), mirrored)
            && Typed(bytes) == Typed(bytes[..n]) + [Byte(bytes[n])]
  {
  }

  lemma {:induction false} UnmirroredOfTag(bytes: seq<byte>, mirrored: bool)
    ensures Unmirrored(Tag(bytes, mirrored)) == if mirrored then [] else Typed(bytes)
    decreases |bytes|
  {
    if |bytes| > 0 {
      TagLast(bytes, mirrored);
      hide Tag, Typed;
      UnmirroredOfTag(bytes[..|bytes| - 1], mirrored);
    }
  }

  lemma {:induction false} AllSeen(global: seq<Tagged>)
    requires NoneMirrored(global)
    ensures Seen(global) == Unmirrored(global)
  {
    if |global| > 0 {
      var front := global[..|global| - 1];
      AllSeen(front);
      assert Seen(global) == Seen(front) + [global[|global| - 1].input];
    }
  }

  /** In a coherent store the open block is the last one, and it is the running one. */
  lemma OpenMatches(em: Emulator, t: TermState, l: Ledger)
    requires SameStore(em, t, l)
    ensures OpenGrid(t.store) == if HasGrid(l) then l.entries[|l.entries| - 1].grid else None
    ensures t.store.openIndex ==
            if |l.entries| > 0 && l.entries[|l.entries| - 1].running then Some(|l.entries| - 1) else None
    ensures forall i :: 0 <= i < |l.entries| - 1 ==> !l.entries[i].running
  {
    var n := |l.entries|;
    if n > 0 {
      assert SameBlock(em, t.store.blocks[n - 1], l.entries[n - 1]);
      assert Blocks.BlockOk(t.store.blocks[n - 1], t.store.openIndex == Some(n - 1));
    }
    forall i | 0 <= i < n - 1 ensures !l.entries[i].running {
      assert SameBlock(em, t.store.blocks[i], l.entries[i]);
      assert Blocks.BlockOk(t.store.blocks[i], t.store.openIndex == Some(i));
    }
  }

  /** Feeding the open block is feeding the last entry. */
  lemma FedAlike(em: Emulator, b: Blocks.Block<GridState>, e: Entry, bytes: seq<byte>)
    requires SameBlock(em, b, e) && e.running && e.grid.Some?
    ensures SameBlock(em, Blocks.FeedBlock(b, bytes),
                      e.(grid := Some(e.grid.value.(input := e.grid.value.input + Typed(bytes))),
                         output := e.output + bytes))
  {
    hide Frozen, Typed;
  }

  lemma FeedTouches(s: Blocks.StoreState, bytes: seq<byte>)
    requires |s.blocks| > 0 && s.openIndex == Some(|s.blocks| - 1)
    ensures var i, r := |s.blocks| - 1, Blocks.FeedOpen(s, bytes);
            r.blocks == s.blocks[i := Blocks.FeedBlock(s.blocks[i], bytes)] && r.nextId == s.nextId
  {
    hide Blocks.FeedBlock;
  }

  /** Bytes that leave the blocks alone. */
  lemma OutsideStored(em: Emulator, t: TermState, l: Ledger, global: seq<Tagged>, m: Ledger)
    requires SameStore(em, t, l) && m.entries == l.entries && m.nextId == l.nextId
    requires m.cols == l.cols && m.rows == l.rows
    requires Outside(global) == m.outside
    ensures SameStore(em, t.(global := global), m)
  {
    hide Blocks.Inv, Outside, SameBlock;
  }

  lemma DeliverIs(l: Ledger, bytes: seq<byte>)
    ensures var r := Deliver(l, bytes);
            && r.nextId == l.nextId && r.cols == l.cols && r.rows == l.rows
            && r.outside == (if HasGrid(l) then l.outside else l.outside + bytes)
            && if HasGrid(l) then
                 && |l.entries| > 0 && l.entries[|l.entries| - 1].grid.Some?
                 && var e := l.entries[|l.entries| - 1];
                 && e.running
                 && r.entries == l.entries[|l.entries| - 1 :=
                      e.(grid := Some(e.grid.value.(input := e.grid.value.input + Typed(bytes))),
                         output := e.output + bytes)]
               else r.entries == l.entries
  {
    hide Typed;
  }

  lemma DispatchStores(em: Emulator, t: TermState, l: Ledger, bytes: seq<byte>)
    requires SameStore(em, t, l)
    ensures SameStore(em, Dispatch(em, t, bytes), Deliver(l, bytes))
  {
    hide *;
    OpenMatches(em, t, l);
    StoreIs(em, t, l);
    DeliverIs(l, bytes);
    var m := Deliver(l, bytes);
    if |bytes| == 0 {
      DeliverNothing(l);
      DispatchNone(em, t);
    } else {
      DispatchIs(em, t, bytes);
      OutsideConcatenates(t.global, Tag(bytes, true));
      OutsideConcatenates(t.global, Tag(bytes, false));
      OutsideOfTag(bytes, true);
      OutsideOfTag(bytes, false);
      assert l.outside + [] == l.outside;
      var u := Dispatch(em, t, bytes);
      if HasGrid(l) {
        var i := |l.entries| - 1;
        Blocks.UpdateKeepsInv(t.store, bytes);
        FeedTouches(t.store, bytes);
        FedAlike(em, t.store.blocks[i], l.entries[i], bytes);
        LastStored(em, t, l, u.store, Blocks.FeedBlock(t.store.blocks[i], bytes), m.entries[i]);
        OutsideStored(em, t.(store := u.store), l.(entries := m.entries), u.global, m);
      } else {
        OutsideStored(em, t, l, u.global, m);
      }
    }
  }

  /** Where a slice goes, seen from outside the blocks. */
  lemma DispatchLeaves(em: Emulator, t: TermState, bytes: seq<byte>)
    requires |bytes| > 0
    ensures var u := Dispatch(em, t, bytes);
            && (if OpenGrid(t.store).Some? then u.global == t.global || u.global == t.global + Tag(bytes, true)
                else u.global == t.global + Tag(bytes, false))
            && |u.store.blocks| == |t.store.blocks|
            && forall i :: 0 <= i < |t.store.blocks| ==>
                 u.store.blocks[i].startLine == t.store.blocks[i].startLine
                 && u.store.blocks[i].endLine == t.store.blocks[i].endLine
  {
    hide Tag, Typed;
  }

  lemma DeliverLeaves(l: Ledger, bytes: seq<byte>)
    ensures var r := Deliver(l, bytes);
            && r.seen == (if HasGrid(l) then l.seen else l.seen + Typed(bytes)) && |r.entries| == |l.entries|
            && forall i :: 0 <= i < |l.entries| ==>
                 && r.entries[i].startMark == l.entries[i].startMark && r.entries[i].running == l.entries[i].running
                 && (!l.entries[i].running ==> r.entries[i] == l.entries[i])
  {
    hide Typed;
  }

  lemma LinesStay(em: Emulator, bs: seq<Blocks.Block<GridState>>, cs: seq<Blocks.Block<GridState>>, es: seq<Entry>,
                  fs: seq<Entry>)
    requires SameLines(em, bs, es) && |cs| == |bs| && |fs| == |es|
    requires forall i :: 0 <= i < |bs| ==> cs[i].startLine == bs[i].startLine && cs[i].endLine == bs[i].endLine
    requires forall i :: 0 <= i < |es| ==>
               && fs[i].startMark == es[i].startMark && fs[i].running == es[i].running
               && (!es[i].running ==> fs[i] == es[i])
    ensures SameLines(em, cs, fs)
  {
    hide LineAt, EndAtMark;
    forall i | 0 <= i < |es| ensures SameLine(em, cs[i], fs[i]) {
      assert SameLine(em, bs[i], es[i]);
    }
  }

  lemma SameIs(em: Emulator, t: TermState, l: Ledger)
    ensures Same(em, t, l) <==> SameStore(em, t, l) && SameOutside(em, t, l)
    ensures SameOutside(em, t, l) <==>
            Unmirrored(t.global) == l.seen && (NoneMirrored(t.global) ==> SameLines(em, t.store.blocks, l.entries))
    ensures SameStore(em, t, l) ==> |t.store.blocks| == |l.entries|
  {
    hide Unmirrored, NoneMirrored, SameLines, Blocks.Inv, SameBlock, Outside;
  }

  lemma DispatchSees(em: Emulator, t: TermState, l: Ledger, bytes: seq<byte>)
    requires Same(em, t, l)
    ensures SameOutside(em, Dispatch(em, t, bytes), Deliver(l, bytes))
  {
    hide *;
    var u := Dispatch(em, t, bytes);
    SameIs(em, t, l);
    SameIs(em, u, Deliver(l, bytes));
    OpenMatches(em, t, l);
    HasGridIs(l);
    if |bytes| == 0 {
      DeliverNothing(l);
      DispatchNone(em, t);
    } else {
      DispatchLeaves(em, t, bytes);
      DeliverLeaves(l, bytes);
      UnmirroredConcatenates(t.global, Tag(bytes, HasGrid(l)));
      UnmirroredOfTag(bytes, HasGrid(l));
      assert l.seen + [] == l.seen;
      if NoneMirrored(u.global) {
        LinesStay(em, t.store.blocks, u.store.blocks, l.entries, Deliver(l, bytes).entries);
      }
    }
  }

  lemma HasGridIs(l: Ledger)
    ensures HasGrid(l) ==> |l.entries| > 0 && l.entries[|l.entries| - 1].grid.Some?
  {
  }

  lemma DispatchRefines(em: Emulator, t: TermState, l: Ledger, bytes: seq<byte>)
    requires Same(em, t, l)
    ensures Same(em, Dispatch(em, t, bytes), Deliver(l, bytes))
  {
    DispatchStores(em, t, l, bytes);
    DispatchSees(em, t, l, bytes);
  }

  lemma CaptureIsUnseen(em: Emulator, t: TermState, l: Ledger, bytes: seq<byte>)
    requires Same(em, t, l)
    ensures Same(em, Capture(t, bytes), l)
  {
    Blocks.UpdateKeepsInv(t.store, bytes);
    hide Blocks.Inv, Outside, Unmirrored, LineAt, EndAtMark, Blocks.Captured, Blocks.Newlines;
  }

  lemma RetractIsUnseen(em: Emulator, t: TermState, l: Ledger, n: nat)
    requires Same(em, t, l)
    ensures Same(em, t, Retract(l, n))
  {
    hide Blocks.Inv, Outside, Unmirrored, LineAt;
  }

  lemma SealedAlike(em: Emulator, b: Blocks.Block<GridState>, e: Entry, line: int, exitCode: Option<int>,
                    duration: Option<nat>, mark: Mark)
    requires SameBlock(em, b, e) && e.running
    ensures SameBlock(em, Blocks.SealBlock(em, b, line, exitCode, duration),
                      e.(running := false, exitCode := exitCode, endMark := Some(mark)))
  {
    hide Frozen, UsedRows, Blocks.SealedEnd;
  }

  /** Replacing the last block and the last entry alike. */
  lemma LastStored(em: Emulator, t: TermState, l: Ledger, store: Blocks.StoreState, b: Blocks.Block<GridState>,
                   e: Entry)
    requires SameStore(em, t, l) && |l.entries| > 0 && SameBlock(em, b, e) && Blocks.Inv(store)
    requires |t.store.blocks| == |l.entries| && store.blocks == t.store.blocks[|l.entries| - 1 := b]
    requires store.nextId == t.store.nextId
    ensures SameStore(em, t.(store := store), l.(entries := l.entries[|l.entries| - 1 := e]))
  {
    hide Blocks.Inv, Outside, SameBlock;
  }

  lemma SealKeepsIds(em: Emulator, s: Blocks.StoreState, line: int, exitCode: Option<int>, duration: Option<nat>)
    ensures Blocks.Seal(em, s, line, exitCode, duration).nextId == s.nextId
  {
    hide Blocks.SealBlock;
  }

  lemma StoreIs(em: Emulator, t: TermState, l: Ledger)
    requires SameStore(em, t, l)
    ensures Blocks.Inv(t.store) && |t.store.blocks| == |l.entries| && Outside(t.global) == l.outside
    ensures |l.entries| > 0 ==> SameBlock(em, t.store.blocks[|l.entries| - 1], l.entries[|l.entries| - 1])
  {
    hide Blocks.Inv, Outside, SameBlock;
  }

  lemma SealStores(em: Emulator, t: TermState, l: Ledger, line: int, exitCode: Option<int>, duration: Option<nat>,
                   mark: Mark)
    requires SameStore(em, t, l)
    ensures SameStore(em, t.(store := Blocks.Seal(em, t.store, line, exitCode, duration)),
                      l.(entries := SealLast(l.entries, exitCode, mark)))
  {
    hide *;
    var i := |l.entries| - 1;
    var store := Blocks.Seal(em, t.store, line, exitCode, duration);
    OpenMatches(em, t, l);
    StoreIs(em, t, l);
    RunningAlike(em, t, l);
    Blocks.SealKeepsInv(em, t.store, line, exitCode, duration);
    SealKeepsIds(em, t.store, line, exitCode, duration);
    SealTouches(em, t.store, l.entries, line, exitCode, duration, mark);
    if i >= 0 && l.entries[i].running {
      SealedAlike(em, t.store.blocks[i], l.entries[i], line, exitCode, duration, mark);
      LastStored(em, t, l, store, Blocks.SealBlock(em, t.store.blocks[i], line, exitCode, duration),
                 l.entries[i].(running := false, exitCode := exitCode, endMark := Some(mark)));
    }
  }

  /** A line measured by the program and the mark it is measured at. */
  ghost predicate Measured(em: Emulator, t: TermState, line: int, mark: Mark) {
    I32_MIN <= line <= I32_MAX && (NoneMirrored(t.global) ==> line == LineAt(em, mark))
  }

  lemma SealedLine(em: Emulator, b: Blocks.Block<GridState>, e: Entry, line: int, exitCode: Option<int>,
                   duration: Option<nat>, mark: Mark)
    requires SameBlock(em, b, e) && e.running && SameLine(em, b, e) && line == LineAt(em, mark)
    ensures SameLine(em, Blocks.SealBlock(em, b, line, exitCode, duration),
                     e.(running := false, exitCode := exitCode, endMark := Some(mark)))
  {
    hide Frozen, UsedRows, LineAt, Blocks.SealedEnd;
  }

  lemma LastLine(em: Emulator, bs: seq<Blocks.Block<GridState>>, es: seq<Entry>, b: Blocks.Block<GridState>, e: Entry)
    requires SameLines(em, bs, es) && |es| > 0 && SameLine(em, b, e)
    ensures SameLines(em, bs[|es| - 1 := b], es[|es| - 1 := e])
  {
    hide SameLine;
  }

  /** Sealing touches the last block, if it runs. */
  lemma SealTouches(em: Emulator, s: Blocks.StoreState, es: seq<Entry>, line: int, exitCode: Option<int>,
                    duration: Option<nat>, mark: Mark)
    requires |s.blocks| == |es|
    requires s.openIndex == if |es| > 0 && es[|es| - 1].running then Some(|es| - 1) else None
    requires |es| > 0 && es[|es| - 1].running ==> s.blocks[|es| - 1].isRunning
    ensures var i := |es| - 1; var r := Blocks.Seal(em, s, line, exitCode, duration);
            if |es| > 0 && es[i].running then
              && r.blocks == s.blocks[i := Blocks.SealBlock(em, s.blocks[i], line, exitCode, duration)]
              && SealLast(es, exitCode, mark) ==
                 es[i := es[i].(running := false, exitCode := exitCode, endMark := Some(mark))]
            else r == s && SealLast(es, exitCode, mark) == es
  {
    hide Blocks.SealBlock;
  }

  lemma SealSees(em: Emulator, t: TermState, l: Ledger, line: int, exitCode: Option<int>, duration: Option<nat>,
                 mark: Mark)
    requires Same(em, t, l) && Measured(em, t, line, mark)
    ensures SameOutside(em, t.(store := Blocks.Seal(em, t.store, line, exitCode, duration)),
                        l.(entries := SealLast(l.entries, exitCode, mark)))
  {
    hide *;
    var i := |l.entries| - 1;
    var u := t.(store := Blocks.Seal(em, t.store, line, exitCode, duration));
    SameIs(em, t, l);
    SameIs(em, u, l.(entries := SealLast(l.entries, exitCode, mark)));
    OpenMatches(em, t, l);
    StoreIs(em, t, l);
    RunningAlike(em, t, l);
    SealTouches(em, t.store, l.entries, line, exitCode, duration, mark);
    if i >= 0 && l.entries[i].running && NoneMirrored(t.global) {
      LineIs(em, t, l, line, mark);
      SealedLine(em, t.store.blocks[i], l.entries[i], line, exitCode, duration, mark);
      LastLine(em, t.store.blocks, l.entries, Blocks.SealBlock(em, t.store.blocks[i], line, exitCode, duration),
               l.entries[i].(running := false, exitCode := exitCode, endMark := Some(mark)));
    }
  }

  lemma LineIs(em: Emulator, t: TermState, l: Ledger, line: int, mark: Mark)
    requires Measured(em, t, line, mark) && NoneMirrored(t.global) && |l.entries| > 0
    requires SameLines(em, t.store.blocks, l.entries) && |t.store.blocks| == |l.entries|
    ensures line == LineAt(em, mark) && SameLine(em, t.store.blocks[|l.entries| - 1], l.entries[|l.entries| - 1])
  {
    hide LineAt, SameLine;
  }

  lemma RunningAlike(em: Emulator, t: TermState, l: Ledger)
    requires SameStore(em, t, l)
    ensures |t.store.blocks| == |l.entries|
    ensures forall i :: 0 <= i < |l.entries| ==> t.store.blocks[i].isRunning == l.entries[i].running
  {
    hide Blocks.Inv, Outside, Frozen;
    forall i | 0 <= i < |l.entries| ensures t.store.blocks[i].isRunning == l.entries[i].running {
      assert SameBlock(em, t.store.blocks[i], l.entries[i]);
    }
  }

  lemma SealRefines(em: Emulator, t: TermState, l: Ledger, line: int, exitCode: Option<int>, duration: Option<nat>,
                    mark: Mark)
    requires Same(em, t, l) && Measured(em, t, line, mark)
    ensures Same(em, t.(store := Blocks.Seal(em, t.store, line, exitCode, duration)),
                 l.(entries := SealLast(l.entries, exitCode, mark)))
  {
    SealStores(em, t, l, line, exitCode, duration, mark);
    SealSees(em, t, l, line, exitCode, duration, mark);
  }

  lemma OpenRefines(em: Emulator, t: TermState, l: Ledger, line: int, pwd: Option<seq<byte>>, branch: Option<seq<byte>>,
                    mark: Mark)
    requires Same(em, t, l) && t.store.openIndex.None? && Measured(em, t, line, mark)
    ensures Same(em, t.(store := Blocks.OpenNew(t.store, line, pwd, branch)), Routing.Open(l, pwd, branch, mark))
  {
    Blocks.OpenKeepsInv(t.store, line, pwd, branch);
    hide Blocks.Inv, Outside, Frozen, Unmirrored, LineAt, EndAtMark;
  }

  /** The program measures where the reference marks. */
  lemma LineIsMarked(em: Emulator, t: TermState, l: Ledger)
    requires Same(em, t, l)
    ensures Measured(em, t, CurrentLine(em, t), MarkNow(l))
  {
    hide *;
    SameIs(em, t, l);
    StoreIs(em, t, l);
    OpenMatches(em, t, l);
    CurrentLineIsOnTheActiveGrid(em, t);
    HasGridIs(l);
    MeasuredIf(em, t, CurrentLine(em, t), MarkNow(l));
    LineAtIs(em, MarkNow(l));
    MarkIs(l);
    if NoneMirrored(t.global) { AllSeen(t.global); }
  }

  lemma MarkIs(l: Ledger)
    ensures MarkNow(l) == if HasGrid(l) then Inside(l.entries[|l.entries| - 1].grid.value.input) else Below(l.seen)
  {
  }

  lemma LineAtIs(em: Emulator, m: Mark)
    ensures LineAt(em, m) ==
            match m
            case Inside(input) => WrapI32(em(input).cursorLine)
            case Below(input) => WrapI32(em(input).history + em(input).cursorLine)
  {
  }

  lemma MeasuredIf(em: Emulator, t: TermState, line: int, mark: Mark)
    ensures Measured(em, t, line, mark) <==>
            I32_MIN <= line <= I32_MAX && (NoneMirrored(t.global) ==> line == LineAt(em, mark))
  {
    hide LineAt, NoneMirrored;
  }

  lemma StartRefines(em: Emulator, t: TermState, l: Ledger, command: seq<byte>, line: int, now: nat, mark: Mark)
    requires Same(em, t, l) && t.store.openIndex.Some? && Measured(em, t, line, mark)
    ensures |l.entries| > 0 && t.store.openIndex == Some(|l.entries| - 1) == Some(|t.store.blocks| - 1)
    ensures var i := |l.entries| - 1; var b := l.entries[i];
            var grid := if b.grid.Some? then b.grid else Some(GridState(l.cols, l.rows, [Resized(l.cols, l.rows)]));
            Same(em, t.(store := t.store.(blocks := t.store.blocks[i :=
                   Blocks.StartCommand(t.store.blocks[i], command, line, t.cols, t.rows)], commandStart := Some(now))),
                 l.(entries := UpdateLast(l.entries, b.(command := command, grid := grid, startMark := mark))))
  {
    OpenMatches(em, t, l);
    var i := |l.entries| - 1;
    assert SameBlock(em, t.store.blocks[i], l.entries[i]);
    Blocks.ApplyKeepsInv(em, t.store, Preexec(command), line, now, t.cols, t.rows);
    hide Blocks.Inv, Outside, Frozen, Unmirrored, LineAt, EndAtMark, NoneMirrored;
  }

  lemma PrecmdIs(em: Emulator, t: TermState, l: Ledger, pwd: Option<seq<byte>>, branch: Option<seq<byte>>, now: nat)
    ensures var line, mark := CurrentLine(em, t), MarkNow(l); var e := Precmd(pwd, branch);
            && ApplyEvent(em, t, e, now) ==
               t.(store := Blocks.OpenNew(Blocks.Seal(em, t.store, line, None, None), line, pwd, branch))
            && Happen(l, e) == Routing.Open(l.(entries := SealLast(l.entries, None, mark)), pwd, branch, mark)
  {
    hide Blocks.Seal, SealLast, Blocks.OpenNew, Routing.Open, CurrentLine, MarkNow;
  }

  lemma FinishedIs(em: Emulator, t: TermState, l: Ledger, code: int, now: nat)
    ensures var line, mark := CurrentLine(em, t), MarkNow(l); var e := CommandFinished(code);
            var elapsed := Blocks.Elapsed(t.store.commandStart, now);
            && ApplyEvent(em, t, e, now) ==
               t.(store := Blocks.Seal(em, t.store.(commandStart := None), line, Some(code), elapsed))
            && Happen(l, e) == l.(entries := SealLast(l.entries, Some(code), mark))
  {
    hide Blocks.Seal, SealLast, CurrentLine, MarkNow, Blocks.Elapsed;
  }

  /** The store a Preexec finds or makes. */
  function Ready(t: TermState, line: int): TermState {
    if t.store.openIndex.None? then t.(store := Blocks.OpenNew(t.store, line, None, None)) else t
  }

  function ReadyLedger(l: Ledger, mark: Mark): Ledger {
    if |l.entries| > 0 && l.entries[|l.entries| - 1].running then l else Routing.Open(l, None, None, mark)
  }

  lemma PreexecIs(em: Emulator, t: TermState, l: Ledger, command: seq<byte>, now: nat)
    ensures var line, mark := CurrentLine(em, t), MarkNow(l);
            var u, m := Ready(t, line), ReadyLedger(l, mark); var i, j := u.store.openIndex, |m.entries| - 1;
            && i.Some? && j >= 0
            && (i.value < |u.store.blocks| ==>
                 ApplyEvent(em, t, Preexec(command), now) ==
                 u.(store := u.store.(blocks := u.store.blocks[i.value :=
                      Blocks.StartCommand(u.store.blocks[i.value], command, line, t.cols, t.rows)],
                    commandStart := Some(now))))
            && var b := m.entries[j];
               var grid := if b.grid.Some? then b.grid else Some(GridState(l.cols, l.rows, [Resized(l.cols, l.rows)]));
               Happen(l, Preexec(command)) ==
               m.(entries := UpdateLast(m.entries, b.(command := command, grid := grid, startMark := mark)))
  {
    hide CurrentLine, MarkNow, Blocks.StartCommand;
  }

  lemma ReadyRefines(em: Emulator, t: TermState, l: Ledger, line: int, mark: Mark)
    requires Same(em, t, l) && Measured(em, t, line, mark)
    ensures var u, m := Ready(t, line), ReadyLedger(l, mark);
            && Same(em, u, m) && u.store.openIndex.Some? && Measured(em, u, line, mark)
            && u.cols == t.cols && u.rows == t.rows && m.cols == l.cols && m.rows == l.rows
  {
    OpenMatches(em, t, l);
    hide Same, HasGrid, OpenGrid;
    if t.store.openIndex.None? {
      OpenRefines(em, t, l, line, None, None, mark);
      SealedMeasures(em, t, Blocks.OpenNew(t.store, line, None, None), line, mark);
    }
  }

  lemma PreexecRefines(em: Emulator, t: TermState, l: Ledger, command: seq<byte>, now: nat)
    requires Same(em, t, l)
    ensures Same(em, ApplyEvent(em, t, Preexec(command), now), Happen(l, Preexec(command)))
  {
    hide *;
    var line, mark := CurrentLine(em, t), MarkNow(l);
    LineIsMarked(em, t, l);
    PreexecIs(em, t, l, command, now);
    ReadyRefines(em, t, l, line, mark);
    StartRefines(em, Ready(t, line), ReadyLedger(l, mark), command, line, now, mark);
  }

  lemma HappenRefines(em: Emulator, t: TermState, l: Ledger, e: DcsEvent, now: nat)
    requires Same(em, t, l)
    ensures Same(em, ApplyEvent(em, t, e, now), Happen(l, e))
  {
    hide *;
    var line, mark := CurrentLine(em, t), MarkNow(l);
    LineIsMarked(em, t, l);
    match e
    case Precmd(pwd, branch) =>
      PrecmdIs(em, t, l, pwd, branch, now);
      SealRefines(em, t, l, line, None, None, mark);
      SealedIsClosed(em, t, l, line);
      SealedMeasures(em, t, Blocks.Seal(em, t.store, line, None, None), line, mark);
      OpenRefines(em, t.(store := Blocks.Seal(em, t.store, line, None, None)),
                  l.(entries := SealLast(l.entries, None, mark)), line, pwd, branch, mark);
    case Preexec(command) => PreexecRefines(em, t, l, command, now);
    case CommandFinished(code) =>
      FinishedIs(em, t, l, code, now);
      ClockIsUnseen(em, t, l, None);
      SealedMeasures(em, t, t.store.(commandStart := None), line, mark);
      SealRefines(em, t.(store := t.store.(commandStart := None)), l, line, Some(code),
                  Blocks.Elapsed(t.store.commandStart, now), mark);
  }

  /** A measure depends on the global terminal alone. */
  lemma SealedMeasures(em: Emulator, t: TermState, store: Blocks.StoreState, line: int, mark: Mark)
    requires Measured(em, t, line, mark)
    ensures Measured(em, t.(store := store), line, mark)
  {
  }

  lemma SealedIsClosed(em: Emulator, t: TermState, l: Ledger, line: int)
    requires Same(em, t, l)
    ensures Blocks.Seal(em, t.store, line, None, None).openIndex == None
  {
    Blocks.SealKeepsInv(em, t.store, line, None, None);
  }

  lemma ClockIsUnseen(em: Emulator, t: TermState, l: Ledger, clock: Option<nat>)
    requires Same(em, t, l)
    ensures Same(em, t.(store := t.store.(commandStart := clock)), l)
  {
  }

  lemma EffectRefines(em: Emulator, t: TermState, l: Ledger, e: DcsEvent, n: nat, now: nat)
    requires Same(em, t, l)
    ensures Same(em, ApplyEvent(em, t, e, now), Effect(l, e, n))
  {
    RetractIsUnseen(em, t, l, n);
    HappenRefines(em, t, Retract(l, n), e, now);
    hide ApplyEvent, Happen, Retract, Blocks.Inv, Outside;
    Uncounted(em, ApplyEvent(em, t, e, now), Happen(Retract(l, n), e));
  }

  lemma Uncounted(em: Emulator, t: TermState, l: Ledger)
    requires Same(em, t, l)
    ensures Same(em, t, l.(recent := 0))
  {
    hide Blocks.Inv, Outside, Unmirrored;
  }

  // ---- one event at a time ----

  /** Index of the first byte that completes an event. */
  function FirstEvent(c: Core, bs: seq<byte>): (p: nat)
    ensures p <= |bs|
    decreases |bs|
  {
    if |bs| == 0 || Emit(c, bs[0]).Some? then 0 else 1 + FirstEvent(Step(c, bs[0]), bs[1..])
  }

  lemma FirstEventIs(c: Core, bs: seq<byte>)
    ensures FirstEvent(c, bs) ==
            if |bs| == 0 || Emit(c, bs[0]).Some? then 0 else 1 + FirstEvent(Step(c, bs[0]), bs[1..])
  {
    hide Emit, Step;
  }

  lemma NothingYet(k: Tracker, at: nat)
    ensures Run(k.core, []) == k.core && Events(k.core, []) == [] && TrackAll(k, [], at) == k
  {
    FeedNothing(k, at);
  }

  lemma {:induction false} QuietBefore(k: Tracker, bs: seq<byte>, at: nat)
    requires Sane(k.core) && (k.lastEsc.Some? ==> k.lastEsc.value < at)
    ensures var p := FirstEvent(k.core, bs); var k1 := TrackAll(k, bs[..p], at);
            && Events(k.core, bs[..p]) == []
            && k1.core == Run(k.core, bs[..p]) && Sane(k1.core)
            && (k1.lastEsc.Some? ==> k1.lastEsc.value < at + p)
            && (p < |bs| ==> Emit(k1.core, bs[p]).Some?)
            && Locate(k, bs, at) == Locate(k1, bs[p..], at + p)
    decreases |bs|
  {
    hide *;
    FirstEventIs(k.core, bs);
    NothingYet(k, at);
    if |bs| == 0 || Emit(k.core, bs[0]).Some? {
      assert bs[..0] == [] && bs[0..] == bs;
    } else {
      TrackIsSane(k, bs[0], at, at + 1);
      LocateOne(k, bs, at);
      var n := Track(k, bs[0], at);
      var p := FirstEvent(k.core, bs);
      QuietBefore(n, bs[1..], at + 1);
      assert bs[..p][1..] == bs[1..][..p - 1] && bs[1..][p - 1..] == bs[p..];
      FeedOne(k, bs[..p], at);
      OneNone(Emit(k.core, bs[0]));
      assert [] + Locate(n, bs[1..], at + 1) == Locate(n, bs[1..], at + 1);
    }
  }

  lemma OneNone<T>(x: Option<T>)
    ensures x.None? ==> One(x) == []
  {
  }

  lemma FeedOne(k: Tracker, bs: seq<byte>, at: nat)
    requires |bs| > 0
    ensures TrackAll(k, bs, at) == TrackAll(Track(k, bs[0], at), bs[1..], at + 1)
    ensures Run(k.core, bs) == Run(Step(k.core, bs[0]), bs[1..])
    ensures Events(k.core, bs) == One(Emit(k.core, bs[0])) + Events(Step(k.core, bs[0]), bs[1..])
  {
    hide Emit, Step, StartAt, Claims;
  }

  /** The reference machine over an event's terminator. */
  lemma SpecTerminator(s: Spec, bs: seq<byte>, n: nat)
    requires s.pending.None? && Sane(s.clock.core) && |bs| > 0 && Emit(s.clock.core, bs[0]).Some?
    requires n == EndAt(bs, 0)
    ensures var after := SpecRun(s, bs[..n]);
            && Flush(after).ledger ==
               Effect(Deliver(s.ledger, bs[..n]), Emit(s.clock.core, bs[0]).value, s.clock.frameLength + n)
            && (after.pending.Some? && n < |bs| ==> bs[n] != BACKSLASH)
  {
    hide Emit, Effect, Deliver, Claims, Step;
    var b, e := bs[0], Emit(s.clock.core, bs[0]).value;
    var first := SpecStep(s, b);
    assert bs[..1] == [b] && [b][1..] == [];
    if n == 2 {
      assert bs[..2] == [b, BACKSLASH] && [b, BACKSLASH][1..] == [BACKSLASH] && [BACKSLASH][1..] == [];
      assert SpecRun(s, [b, BACKSLASH]) == SpecRun(first, [BACKSLASH]) == SpecStep(first, BACKSLASH);
      DeliverConcatenates(s.ledger, [b], [BACKSLASH]);
      assert [b] + [BACKSLASH] == [b, BACKSLASH];
    } else {
      assert SpecRun(s, [b]) == first;
    }
  }

  lemma {:induction false} SpecRunsCore(s: Spec, bs: seq<byte>)
    ensures SpecRun(s, bs).clock.core == Run(s.clock.core, bs)
    decreases |bs|
  {
    if |bs| > 0 {
      StepRunsCore(s, bs[0]);
      hide SpecStep, Step;
      SpecRunsCore(SpecStep(s, bs[0]), bs[1..]);
    }
  }

  lemma StepRunsCore(s: Spec, b: byte)
    ensures SpecStep(s, b).clock.core == Step(s.clock.core, b)
  {
    hide Effect, Deliver, Emit;
  }

  lemma EndShifts(bs: seq<byte>, at: nat)
    requires |bs| > 0
    ensures EndAt(bs, at) == at + EndAt(bs, 0) && 1 <= EndAt(bs, 0) <= 2
  {
  }

  lemma FlushSettles(s: Spec)
    ensures Flush(s).pending.None? && Flush(s).clock == s.clock && (s.pending.None? ==> Flush(s) == s)
  {
  }

  /** One event cut off the front: what the program's list says, and what the reference machine does. */
  datatype Cut = Cut(end: nat, length: nat, located: Located, next: Tracker, after: Spec)

  lemma CutEvent(k: Tracker, s: Spec, rest: seq<byte>, at: nat) returns (c: Cut)
    requires s.pending.None? && k.core == s.clock.core && Sane(k.core)
    requires (k.lastEsc.Some? ==> k.lastEsc.value < at) && FirstEvent(k.core, rest) < |rest|
    ensures var p := FirstEvent(k.core, rest); var n := c.end - at;
            && at + p < c.end <= at + |rest| && n == p + EndAt(rest[p..], 0)
            && Locate(k, rest, at) == [c.located] + Locate(c.next, rest[n..], c.end)
            && c.located.end == c.end
            && c.located.start == StartAt(TrackAll(k, rest[..p], at), rest[p], at + p)
            && c.length == TickAll(s.clock, rest[..p]).frameLength + (n - p)
            && c.next == TrackAll(k, rest[..n], at)
            && Sane(c.next.core) && (c.next.lastEsc.Some? ==> c.next.lastEsc.value < c.end)
            && c.after == Flush(SpecRun(s, rest[..n])) && c.after.pending.None?
            && c.after.clock.core == c.next.core && !c.next.core.isOurs
            && c.after.ledger == Effect(Deliver(s.ledger, rest[..n]), c.located.event, c.length)
            && Flush(SpecRun(s, rest)) == Flush(SpecRun(c.after, rest[n..]))
  {
    hide *;
    var p := FirstEvent(k.core, rest);
    var front, tail := rest[..p], rest[p..];
    QuietBefore(k, rest, at);
    QuietRun(s, front);
    var k1, s1 := TrackAll(k, front, at), SpecRun(s, front);
    var m := EndAt(tail, 0);
    EndShifts(tail, at + p);
    var n := p + m;
    FlushSettles(SpecRun(s, rest[..n]));
    SpecTerminator(s1, tail, m);
    LocateOne(k1, tail, at + p);
    var next := AfterEvent(k1, tail, at + p);
    assert front + tail[..m] == rest[..n] && tail[m..] == rest[n..] && rest[..n] + rest[n..] == rest;
    TrackConcat(k, front, tail[..m], at);
    SpecRunConcatenates(s, front, tail[..m]);
    SpecRunConcatenates(s, rest[..n], rest[n..]);
    DeliverConcatenates(s.ledger, front, tail[..m]);
    PendingSettles(SpecRun(s, rest[..n]), rest[n..]);
    SpecRunsCore(s1, tail[..m]);
    TrackingRuns(k1, tail[..m], at + p);
    c := Cut(at + n, TickAll(s.clock, front).frameLength + m,
             Located(StartAt(k1, tail[0], at + p), at + n, Emit(k1.core, tail[0]).value), next,
             Flush(SpecRun(s, rest[..n])));
  }

  lemma {:induction false} TrackConcat(k: Tracker, a: seq<byte>, b: seq<byte>, at: nat)
    ensures TrackAll(k, a + b, at) == TrackAll(TrackAll(k, a, at), b, at + |a|)
    decreases |a|
  {
    hide Track;
    if |a| == 0 {
      assert a + b == b;
    } else {
      assert (a + b)[1..] == a[1..] + b;
      TrackConcat(Track(k, a[0], at), a[1..], b, at + 1);
    }
  }

  lemma NoEvent(k: Tracker, rest: seq<byte>, at: nat)
    requires Sane(k.core) && (k.lastEsc.Some? ==> k.lastEsc.value < at) && FirstEvent(k.core, rest) == |rest|
    ensures Locate(k, rest, at) == [] && Events(k.core, rest) == []
  {
    QuietBefore(k, rest, at);
    assert rest[..|rest|] == rest && rest[|rest|..] == [];
    FeedNothing(TrackAll(k, rest, at), at + |rest|);
  }

  // ---- routing ----

  lemma {:induction false} WalkRefines(em: Emulator, t: TermState, s: Spec, k: Tracker, rest: seq<byte>, at: nat,
                                       now: nat)
    requires s.pending.None? && k.core == s.clock.core && Sane(k.core) && (k.lastEsc.Some? ==> k.lastEsc.value < at)
    requires Same(em, t, s.ledger)
    requires Walk(em, t, rest, at, Locate(k, rest, at), now).Fed?
    ensures Same(em, Walk(em, t, rest, at, Locate(k, rest, at), now).state, Flush(SpecRun(s, rest)).ledger)
    decreases |rest|
  {
    hide *;
    if FirstEvent(k.core, rest) == |rest| {
      NoEvent(k, rest, at);
      QuietRun(s, rest);
      FlushSettles(SpecRun(s, rest));
      WalkNone(em, t, rest, at, now);
      DispatchRefines(em, t, s.ledger, rest);
      CaptureIsUnseen(em, Dispatch(em, t, rest), Deliver(s.ledger, rest), rest);
    } else {
      var c := CutEvent(k, s, rest, at);
      var n := c.end - at;
      WalkStep(em, t, rest, at, c.located, Locate(c.next, rest[n..], c.end), now);
      RoundIs(em, t, rest, at, c.located, now);
      var content := ContentEnd(c.located);
      var sent := Dispatch(em, t, rest[..n]);
      DispatchRefines(em, t, s.ledger, rest[..n]);
      if content > at { CaptureIsUnseen(em, sent, Deliver(s.ledger, rest[..n]), rest[..content - at]); }
      var kept := if content > at then Capture(sent, rest[..content - at]) else sent;
      EffectRefines(em, kept, Deliver(s.ledger, rest[..n]), c.located.event, c.length, now);
      WalkRefines(em, Round(em, t, rest, at, c.located, now), c.after, c.next, rest[n..], c.end, now);
    }
  }
}
