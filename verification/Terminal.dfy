/** The terminal object: sniffer, block store and global emulator behind one feed. */
module TerminalObject {
  import opened Bytes
  import opened Wire
  import opened Sniffer
  import opened Grid
  import Blocks
  import Store
  import Model = TerminalModel

  class Terminal {
    const emulator: Emulator
    const dcs: DcsSniffer
    const blocks: Store.BlockStore
    var global: seq<Model.Tagged>
    var cols: nat
    var rows: nat

    ghost predicate Valid()
      reads this, dcs, blocks, blocks.Grids()
    {
      && blocks.Valid() && blocks.emulator == emulator
      && Sane(dcs.CoreState())
      && 1 <= rows < U16
    }

    ghost function State(): Model.TermState
      reads this, dcs, blocks, blocks.Grids()
    {
      Model.TermState(dcs.CoreState(), dcs.frameStart, dcs.events, blocks.State(), global, cols, rows)
    }

    constructor (emulator: Emulator, cols: nat, rows: nat)
      requires 1 <= rows < U16
      ensures Valid() && State() == Model.New(cols, rows) && this.emulator == emulator
      ensures fresh(dcs) && fresh(blocks) && blocks.Grids() == {}
    {
      this.emulator := emulator;
      dcs := new DcsSniffer();
      blocks := new Store.BlockStore(emulator);
      global := [Model.Tagged(Resized(cols, rows), false)];
      this.cols, this.rows := cols, rows;
    }

    /** The open block has a grid attached. */
    predicate Routed()
      reads this, blocks
    {
      blocks.openIndex.Some? && blocks.openIndex.value < |blocks.blocks|
      && blocks.blocks[blocks.openIndex.value].grid.Some?
    }

    /** Feed the open block's grid; is the alternate screen up before or after? */
    method FeedRunningGrid(bytes: seq<byte>) returns (alt: bool)
      requires Valid() && Routed()
      modifies blocks.Grids()
      ensures Valid() && blocks.Grids() == old(blocks.Grids())
      ensures State() == old(State()).(store := Blocks.FeedOpen(old(State()).store, bytes))
      ensures Model.OpenGrid(old(State()).store).Some?
      ensures var before := Model.OpenGrid(old(State()).store).value.input;
              alt == (emulator(before).alt || emulator(before + Typed(bytes)).alt)
    {
      hide Blocks.Inv, Blocks.FeedOpen, Sane, Typed;
      var grid := blocks.blocks[blocks.openIndex.value].grid.value;
      assert grid in blocks.Grids();
      assert Model.OpenGrid(State().store) == Some(grid.State());
      var wasAlt := grid.Screen().alt;
      blocks.FeedOpenGrid(bytes);
      var isAlt := grid.Screen().alt;
      alt := wasAlt || isAlt;
    }

    method DispatchChunk(bytes: seq<byte>)
      requires Valid()
      modifies this`global, blocks.Grids()
      ensures Valid() && blocks.Grids() == old(blocks.Grids())
      ensures State() == Model.Dispatch(emulator, old(State()), bytes)
    {
      hide Blocks.Inv, Blocks.FeedOpen, Sane, Model.Dispatch, Model.Tag, Typed;
      if |bytes| == 0 {
        Model.DispatchNone(emulator, State());
        return;
      }
      ghost var before := State();
      Model.DispatchIs(emulator, before, bytes);
      var alsoGlobal := true;
      var mirrored := false;
      if Routed() {
        alsoGlobal := FeedRunningGrid(bytes);
        mirrored := true;
      } else {
        assert Model.OpenGrid(before.store) == None;
      }
      if alsoGlobal {
        global := global + Model.Tag(bytes, mirrored);
      }
    }

    method CaptureOutputBytes(bytes: seq<byte>)
      requires Valid()
      modifies blocks
      ensures Valid() && blocks.Grids() == old(blocks.Grids())
      ensures State() == Model.Capture(old(State()), bytes)
    {
      if |bytes| == 0 {
        Model.CaptureNone(State());
        return;
      }
      if Routed() {
        blocks.CaptureOutput(bytes);
      } else {
        Blocks.NoGridNoUpdate(blocks.State(), bytes);
      }
    }

    method CurrentGridAbsoluteLine() returns (line: int)
      requires Valid()
      ensures line == Model.CurrentLine(emulator, State())
    {
      var i := |blocks.blocks|;
      ghost var all := blocks.State().blocks;
      assert all[..i] == all;
      while i > 0
        invariant 0 <= i <= |blocks.blocks|
        invariant Model.LastRunning(all[..i]) == Model.LastRunning(all)
      {
        i := i - 1;
        assert all[..i + 1][..i] == all[..i];
        if blocks.blocks[i].isRunning {
          if blocks.blocks[i].grid.Some? {
            assert blocks.blocks[i].grid.value in blocks.Grids();
            return WrapI32(blocks.blocks[i].grid.value.Screen().cursorLine);
          }
          break;
        }
      }
      var v := emulator(Model.Seen(global));
      line := WrapI32(v.history + v.cursorLine);
    }

    /** One turn of the loop: the segment through the frame's end, its content, and the event. */
    method FeedSegment(bytes: seq<byte>, cursor: nat, l: Located, now: nat)
      requires Valid() && cursor <= l.end <= |bytes| && Model.ContentEnd(l) <= |bytes|
      modifies this`global, blocks, blocks.Grids()
      ensures Valid()
      ensures var sent := Model.Dispatch(emulator, old(State()), bytes[cursor..l.end]);
              var content := Model.ContentEnd(l);
              var kept := if content > cursor then Model.Capture(sent, bytes[cursor..content]) else sent;
              State() == Model.ApplyEvent(emulator, kept, l.event, now)
      ensures forall g :: g in blocks.Grids() ==> g in old(blocks.Grids()) || fresh(g)
    {
      hide Model.Dispatch, Model.Capture, Model.ApplyEvent, Model.CurrentLine, Blocks.Inv, Blocks.Apply, Sane;
      var contentEnd := Model.ContentEnd(l);
      DispatchChunk(bytes[cursor..l.end]);
      if contentEnd > cursor {
        CaptureOutputBytes(bytes[cursor..contentEnd]);
      }
      var current := CurrentGridAbsoluteLine();
      Model.ApplyEventIs(emulator, State(), l.event, now);
      blocks.Apply(l.event, current, now, cols, rows);
    }

    /** What follows the last frame. */
    method FeedRest(rest: seq<byte>)
      requires Valid()
      modifies this`global, blocks, blocks.Grids()
      ensures Valid() && blocks.Grids() == old(blocks.Grids())
      ensures State() == Model.Capture(Model.Dispatch(emulator, old(State()), rest), rest)
    {
      hide Model.Dispatch, Model.Capture, Blocks.Inv, Sane;
      DispatchChunk(rest);
      if |rest| > 0 {
        CaptureOutputBytes(rest);
      } else {
        Model.CaptureNone(State());
      }
    }

    /** `panicked` tells whether the program would have stopped on a slice out of range. */
    method Feed(bytes: seq<byte>, now: nat) returns (panicked: bool)
      requires Valid()
      modifies this`global, dcs, blocks, blocks.Grids()
      ensures panicked <==> Model.Feed(emulator, old(State()), bytes, now).Panicked?
      ensures !panicked ==> Valid() && Model.Feed(emulator, old(State()), bytes, now) == Model.Fed(State())
      ensures forall g :: g in blocks.Grids() ==> g in old(blocks.Grids()) || fresh(g)
    {
      hide Model.Dispatch, Model.Capture, Model.ApplyEvent, Model.Walk, Model.Feed, Model.CurrentLine;
      hide Locate, TrackAll, Run, Events, Blocks.Inv, Blocks.Apply, Sane;
      ghost var result := Model.Feed(emulator, State(), bytes, now);
      ghost var t1 := Model.FeedIs(emulator, State(), bytes, now);
      var events := dcs.FeedWithPositions(bytes);
      var cursor := 0;
      var j := 0;
      assert bytes[0..] == bytes && events[0..] == events;
      while j < |events|
        invariant 0 <= j <= |events| && 0 <= cursor <= |bytes|
        invariant Valid()
        invariant Model.Walk(emulator, State(), bytes[cursor..], cursor, events[j..], now) == result
        invariant forall g :: g in blocks.Grids() ==> g in old(blocks.Grids()) || fresh(g)
      {
        var l := events[j];
        Model.WalkOne(emulator, State(), bytes, cursor, events, j, now);
        if !(cursor <= l.end <= |bytes|) || Model.ContentEnd(l) > |bytes| {
          return true;
        }
        FeedSegment(bytes, cursor, l, now);
        cursor := l.end;
        j := j + 1;
      }
      assert events[j..] == [];
      Model.WalkNone(emulator, State(), bytes[cursor..], cursor, now);
      FeedRest(bytes[cursor..]);
      panicked := false;
    }

    method Resize(newCols: nat, newRows: nat)
      requires Valid() && 1 <= newRows < U16
      modifies this, blocks.Grids()
      ensures Valid() && State() == Model.Resize(old(State()), newCols, newRows)
    {
      hide Blocks.Inv, Blocks.ResizeAll, Sane;
      global := global + [Model.Tagged(Resized(newCols, newRows), false)];
      blocks.ResizeGrids(newCols, newRows);
      cols, rows := newCols, newRows;
    }

    method ResetBlocks()
      requires Valid()
      modifies blocks
      ensures Valid() && State() == Model.ResetBlocks(old(State()))
    {
      blocks.Reset();
    }
  }
}
