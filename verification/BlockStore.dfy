/** The block store as the program keeps it: records in a list, the open one owning a live grid object. */
module Store {
  import opened Bytes
  import opened Wire
  import opened Colour
  import opened Grid
  import opened Blocks

  type LiveBlock = Block<BlockGrid>

  function Look(b: LiveBlock): Block<GridState>
    reads if b.grid.Some? then {b.grid.value} else {}
  {
    Block(b.id, b.command, b.startLine, b.endLine, b.frozen, b.exitCode, b.durationMs, b.workingDirectory,
          b.gitBranch, if b.grid.Some? then Some(b.grid.value.State()) else None, b.isRunning, b.output, b.outputLines)
  }

  ghost function GridsOf(bs: seq<LiveBlock>): set<BlockGrid> {
    set i | 0 <= i < |bs| && bs[i].grid.Some? :: bs[i].grid.value
  }

  ghost function LookAll(bs: seq<LiveBlock>): (r: seq<Block<GridState>>)
    reads GridsOf(bs)
    ensures |r| == |bs| && forall i :: 0 <= i < |bs| ==> r[i] == Look(bs[i])
  {
    seq(|bs|, i requires 0 <= i < |bs| reads GridsOf(bs) => Look(bs[i]))
  }

  lemma OpenIsLast(s: StoreState)
    requires Inv(s)
    ensures s.openIndex.Some? ==> s.openIndex.value + 1 == |s.blocks|
    ensures forall i :: 0 <= i < |s.blocks| ==> s.blocks[i].isRunning == (s.openIndex == Some(i))
    ensures forall i :: 0 <= i < |s.blocks| && s.blocks[i].grid.Some? ==> s.blocks[i].isRunning
  {
    hide Newlines, IdsIncrease;
    forall i | 0 <= i < |s.blocks| ensures BlockOk(s.blocks[i], s.openIndex == Some(i)) {
    }
  }

  class BlockStore {
    const emulator: Emulator
    var blocks: seq<LiveBlock>
    var nextId: nat
    var openIndex: Option<nat>
    var commandStart: Option<nat>

    ghost function Grids(): set<BlockGrid>
      reads this
    {
      GridsOf(blocks)
    }

    ghost predicate Valid()
      reads this, Grids()
    {
      && Inv(State())
      && forall g :: g in Grids() ==> g.emulator == emulator && 1 <= g.rows < U16
    }

    ghost function State(): StoreState
      reads this, Grids()
    {
      StoreState(LookAll(blocks), nextId, openIndex, commandStart)
    }

    constructor (emulator: Emulator)
      ensures Valid() && State() == EMPTY && Grids() == {} && this.emulator == emulator
    {
      this.emulator := emulator;
      blocks, nextId, openIndex, commandStart := [], 1, None, None;
    }

    method OpenNew(line: int, pwd: Option<seq<byte>>, branch: Option<seq<byte>>)
      requires Valid() && openIndex == None && I32_MIN <= line <= I32_MAX
      modifies this
      ensures Valid() && Grids() == old(Grids())
      ensures State() == Blocks.OpenNew(old(State()), line, pwd, branch)
    {
      ghost var before := State();
      OpenKeepsInv(before, line, pwd, branch);
      hide Inv, Newlines;
      var id := nextId;
      nextId := nextId + 1;
      blocks := blocks + [NewBlock(id, line, pwd, branch)];
      openIndex := Some(|blocks| - 1);
      assert Grids() == old(Grids());
      assert LookAll(blocks) == before.blocks + [NewBlock(id, line, pwd, branch)];
    }

    method SealWith(line: int, exitCode: Option<int>, duration: Option<nat>)
      requires Valid()
      modifies this
      ensures Valid() && openIndex == None && Grids() == {}
      ensures State() == Seal(emulator, old(State()), line, exitCode, duration)
    {
      hide UsedRows, Frozen, SealedEnd, Newlines, Inv;
      ghost var before := State();
      SealKeepsInv(emulator, before, line, exitCode, duration);
      OpenIsLast(before);
      if openIndex.None? {
        assert Grids() == {};
        return;
      }
      var i := openIndex.value;
      if !blocks[i].isRunning { return; }
      var b := blocks[i];
      var snap: Option<Snapshot<RawCellSnapshot>> := None;
      var used: Option<nat> := None;
      if b.grid.Some? {
        assert b.grid.value in Grids();
        var frozen := b.grid.value.SnapshotRaw();
        var rows := b.grid.value.CountUsedRows();
        snap, used := Some(frozen), Some(rows);
      }
      blocks := blocks[i := Block(b.id, b.command, b.startLine, SealedEnd(b.startLine, used, line), snap, exitCode,
                                  duration, b.workingDirectory, b.gitBranch, None, false, b.output, b.outputLines)];
      openIndex := None;
      assert LookAll(blocks) == before.blocks[i := SealBlock(emulator, before.blocks[i], line, exitCode, duration)];
      assert Grids() == {};
    }

    method Execute(command: seq<byte>, line: int, now: nat, cols: nat, rows: nat)
      requires Valid() && I32_MIN <= line <= I32_MAX && 1 <= rows < U16
      modifies this
      ensures Valid() && forall g :: g in Grids() ==> g in old(Grids()) || fresh(g)
      ensures State() == Blocks.Apply(emulator, old(State()), Preexec(command), line, now, cols, rows)
    {
      hide Newlines, Inv;
      ghost var start := State();
      ApplyKeepsInv(emulator, start, Preexec(command), line, now, cols, rows);
      OpenIsLast(start);
      if openIndex.None? { OpenNew(line, None, None); }
      ghost var before := State();
      var i := openIndex.value;
      var b := blocks[i];
      var grid := b.grid;
      if grid.None? {
        var attached := new BlockGrid(emulator, cols, rows);
        grid := Some(attached);
      } else {
        assert grid.value in Grids();
      }
      blocks := blocks[i := b.(command := command, startLine := line, grid := grid)];
      commandStart := Some(now);
      assert LookAll(blocks) == before.blocks[i := StartCommand(before.blocks[i], command, line, cols, rows)];
    }

    method Apply(e: DcsEvent, line: int, now: nat, cols: nat, rows: nat)
      requires Valid() && I32_MIN <= line <= I32_MAX && 1 <= rows < U16
      modifies this
      ensures Valid() && forall g :: g in Grids() ==> g in old(Grids()) || fresh(g)
      ensures State() == Blocks.Apply(emulator, old(State()), e, line, now, cols, rows)
    {
      hide Seal, Newlines, Blocks.OpenNew;
      match e {
        case Precmd(pwd, branch) =>
          SealWith(line, None, None);
          OpenNew(line, pwd, branch);
        case Preexec(command) =>
          Execute(command, line, now, cols, rows);
        case CommandFinished(code) =>
          var duration := Elapsed(commandStart, now);
          ghost var before := State();
          commandStart := None;
          assert State() == before.(commandStart := None);
          SealWith(line, Some(code), duration);
      }
    }

    /** What `Terminal` does through the open block: feed its grid. */
    method FeedOpenGrid(bytes: seq<byte>)
      requires Valid() && openIndex.Some? && openIndex.value < |blocks| && blocks[openIndex.value].grid.Some?
      modifies Grids()
      ensures Valid() && Grids() == old(Grids())
      ensures State() == FeedOpen(old(State()), bytes)
      ensures blocks[openIndex.value].grid.value.input == old(blocks[openIndex.value].grid.value.input) + Typed(bytes)
    {
      UpdateKeepsInv(State(), bytes);
      OpenIsLast(State());
      hide Inv, Newlines;
      var i := openIndex.value;
      ghost var before := State().blocks;
      assert blocks[i].grid.value in Grids();
      blocks[i].grid.value.Feed(bytes);
      assert LookAll(blocks) == before[i := FeedBlock(before[i], bytes)];
    }

    method CaptureOutput(bytes: seq<byte>)
      requires Valid() && openIndex.Some? && openIndex.value < |blocks| && blocks[openIndex.value].grid.Some?
      modifies this
      ensures Valid() && Grids() == old(Grids())
      ensures State() == CaptureOpen(old(State()), bytes)
    {
      UpdateKeepsInv(State(), bytes);
      var i := openIndex.value;
      ghost var before := State().blocks;
      var b := blocks[i];
      assert BlockOk(before[i], true);
      hide Inv, Newlines, Captured, BlockOk;
      var output, lines := AppendCapped(b.output, b.outputLines, bytes);
      blocks := blocks[i := b.(output := output, outputLines := lines)];
      assert forall k :: 0 <= k < |blocks| ==> blocks[k].grid == old(blocks)[k].grid;
      assert Grids() == old(Grids());
      assert LookAll(blocks) == before[i := CaptureBlock(before[i], bytes)];
    }

    /** The loop over the records; at most the last one has a grid. */
    method ResizeEach(cols: nat, rows: nat)
      requires forall k :: 0 <= k < |blocks| && blocks[k].grid.Some? ==> k == |blocks| - 1
      modifies Grids()
      ensures forall g :: g in Grids() ==>
        g.State() == GridState(cols, rows, old(g.input) + [Resized(cols, rows)])
    {
      var i := 0;
      while i < |blocks|
        invariant 0 <= i <= |blocks|
        invariant i < |blocks| ==> forall g :: g in Grids() ==> g.State() == old(g.State())
        invariant i == |blocks| ==> forall g :: g in Grids() ==>
          g.State() == GridState(cols, rows, old(g.input) + [Resized(cols, rows)])
      {
        if blocks[i].grid.Some? {
          assert Grids() == {blocks[i].grid.value};
          blocks[i].grid.value.Resize(cols, rows);
        } else if i + 1 == |blocks| {
          assert Grids() == {};
        }
        i := i + 1;
      }
    }

    method ResizeGrids(cols: nat, rows: nat)
      requires Valid() && 1 <= rows < U16
      modifies Grids()
      ensures Valid() && Grids() == old(Grids())
      ensures State() == old(State()).(blocks := ResizeAll(old(State()).blocks, cols, rows))
    {
      ghost var start := State();
      DoKeepsInv(emulator, start, Op.Resize(cols, rows));
      OpenIsLast(start);
      hide Inv, Newlines, ResizeAll;
      ghost var before := start.blocks;
      ResizeEach(cols, rows);
      forall k | 0 <= k < |blocks| ensures LookAll(blocks)[k] == ResizeBlock(before[k], cols, rows) {
        if blocks[k].grid.Some? { assert blocks[k].grid.value in Grids(); }
      }
      assert LookAll(blocks) == ResizeAll(before, cols, rows);
    }

    method Reset()
      requires Valid()
      modifies this
      ensures Valid() && Grids() == {}
      ensures State() == Clear(old(State()))
    {
      blocks := [];
      openIndex := None;
      commandStart := None;
    }
  }
}
