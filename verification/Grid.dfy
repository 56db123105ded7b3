/** A terminal screen seen through its emulator, and the snapshots taken of it. */
module Grid {
  import opened Bytes
  import opened Colour

  datatype CellFlag = Bold | Underline | Inverse | Italic | WideChar | WideCharSpacer | Strikeout | Other

  datatype Cell = Cell(c: nat, fg: Color, bg: Color, flags: set<CellFlag>)

  /** What the library terminal shows: `cell(line, column)` for lines from -history up to the screen's last one. */
  datatype View = View(history: nat, cell: (int, int) -> Cell, cursorLine: int, cursorColumn: nat, alt: bool)

  /** Everything a terminal is ever given. Its creation is its first resize. */
  datatype GridInput = Byte(b: byte) | Resized(cols: nat, rows: nat)

  /** The library: any function from what was fed to what is shown. */
  type Emulator = seq<GridInput> -> View

  datatype GridState = GridState(cols: nat, rows: nat, input: seq<GridInput>)

  function Typed(bytes: seq<byte>): seq<GridInput> {
    seq(|bytes|, i requires 0 <= i < |bytes| => Byte(bytes[i]))
  }

  const SPACE := 0x20
  const U16 := 0x1_0000

  predicate Inked(cell: Cell) {
    cell.c != SPACE || cell.flags != {}
  }

  predicate InkedRow(v: View, row: int, cols: nat) {
    exists col :: 0 <= col < cols && Inked(v.cell(row, col))
  }

  predicate OnScreen(v: View, rows: nat) {
    0 <= v.cursorLine < rows
  }

  /** The cursor's row always counts. */
  predicate InUse(v: View, row: int, cols: nat) {
    row == v.cursorLine || InkedRow(v, row, cols)
  }

  /** The oldest line. */
  function Top(v: View): int {
    0 - v.history
  }

  /** The lowest row, below `row`, that is the cursor's or holds ink. */
  function LastContent(v: View, cols: nat, row: nat): (r: Option<int>)
    ensures r.Some? ==> 0 <= r.value < row && InUse(v, r.value, cols)
    ensures forall k :: (if r.Some? then r.value + 1 else 0) <= k < row ==> !InUse(v, k, cols)
  {
    if row == 0 then None
    else if InUse(v, row - 1, cols) then Some(row - 1)
    else LastContent(v, cols, row - 1)
  }

  /** Rows of the visible screen that count as used. */
  function VisibleUsed(v: View, cols: nat, rows: nat): (r: nat)
    ensures 1 <= r <= Max(1, rows)
  {
    match LastContent(v, cols, rows)
    case Some(r) => r + 1
    case None => Max(1, Min(v.cursorLine + 1, rows))
  }

  function UsedRows(v: View, cols: nat, rows: nat): nat
  {
    (v.history + VisibleUsed(v, cols, rows)) % U16
  }

  // ---- snapshots ----

  datatype CellSnapshot = CellSnapshot(ch: nat, fgRgba: nat, bgRgba: nat, flags: nat)
  datatype RawCellSnapshot = RawCellSnapshot(ch: nat, fg: CellColor, bg: CellColor, flags: nat)

  datatype Snapshot<T> =
    Snapshot(cols: nat, rows: nat, cursorCol: nat, cursorRow: nat, displayOffset: nat, cells: seq<T>)

  function Bit(f: set<CellFlag>, flag: CellFlag, value: nat): nat {
    if flag in f then value else 0
  }

  /** The strikethrough bit is not part of a block's snapshot. */
  function FlagBits(f: set<CellFlag>): nat {
    Bit(f, Bold, 1) + Bit(f, Underline, 2) + Bit(f, Inverse, 4) + Bit(f, Italic, 8) + Bit(f, WideChar, 16)
    + Bit(f, WideCharSpacer, 32)
  }

  /** The place of a flag in the number, if it has one. */
  function Weight(flag: CellFlag): nat {
    match flag
    case Bold => 1
    case Underline => 2
    case Inverse => 4
    case Italic => 8
    case WideChar => 16
    case WideCharSpacer => 32
    case _ => 0
  }

  predicate Has(flags: nat, flag: CellFlag) {
    Weight(flag) > 0 && flags / Weight(flag) % 2 == 1
  }

  /** A binary digit between those below and those above it. */
  lemma Digit(n: nat, low: nat, bit: nat, high: nat, weight: nat)
    requires weight in {1, 2, 4, 8, 16, 32} && low < weight && bit < 2 && n == low + weight * (bit + 2 * high)
    ensures n / weight % 2 == bit
  {
    assert n / weight == bit + 2 * high;
  }

  /** WHAT THE NUMBER TELLS. Each of six flags can be read back from its own bit, the other two leave no trace, and no
    other bit is ever set. */
  lemma FlagsCanBeRead(f: set<CellFlag>, flag: CellFlag)
    ensures Has(FlagBits(f), flag) <==> flag in f && Weight(flag) > 0
    ensures Weight(flag) == 0 ==> FlagBits(f + {flag}) == FlagBits(f)
    ensures FlagBits(f) < 64
  {
    var n := FlagBits(f);
    var b0, b1, b2 := Bit(f, Bold, 1), Bit(f, Underline, 1), Bit(f, Inverse, 1);
    var b3, b4, b5 := Bit(f, Italic, 1), Bit(f, WideChar, 1), Bit(f, WideCharSpacer, 1);
    assert n == b0 + 2 * b1 + 4 * b2 + 8 * b3 + 16 * b4 + 32 * b5;
    match flag {
      case Bold => Digit(n, 0, b0, b1 + 2 * b2 + 4 * b3 + 8 * b4 + 16 * b5, 1);
      case Underline => Digit(n, b0, b1, b2 + 2 * b3 + 4 * b4 + 8 * b5, 2);
      case Inverse => Digit(n, b0 + 2 * b1, b2, b3 + 2 * b4 + 4 * b5, 4);
      case Italic => Digit(n, b0 + 2 * b1 + 4 * b2, b3, b4 + 2 * b5, 8);
      case WideChar => Digit(n, b0 + 2 * b1 + 4 * b2 + 8 * b3, b4, b5, 16);
      case WideCharSpacer => Digit(n, b0 + 2 * b1 + 4 * b2 + 8 * b3 + 16 * b4, b5, 0, 32);
      case Strikeout =>
      case Other =>
    }
  }

  function Shown(cell: Cell): nat {
    if WideCharSpacer in cell.flags || (cell.c == SPACE && cell.flags == {}) then 0 else cell.c
  }

  function Paint(cell: Cell, p: Palette): CellSnapshot {
    CellSnapshot(Shown(cell), ToRgba(cell.fg, p), ToRgba(cell.bg, p), FlagBits(cell.flags))
  }

  function Painter(p: Palette): Cell -> CellSnapshot {
    cell => Paint(cell, p)
  }

  function Freeze(cell: Cell): RawCellSnapshot {
    RawCellSnapshot(Shown(cell), Keep(cell.fg), Keep(cell.bg), FlagBits(cell.flags))
  }

  function ResolveCell(raw: RawCellSnapshot, p: Palette): CellSnapshot {
    CellSnapshot(raw.ch, Colour.Resolve(raw.fg, p), Colour.Resolve(raw.bg, p), raw.flags)
  }

  function Row<T>(f: Cell -> T, v: View, row: int, n: nat): seq<T> {
    seq(n, col requires 0 <= col < n => f(v.cell(row, col)))
  }

  function Rows<T>(f: Cell -> T, v: View, cols: nat, first: int, end: int): seq<T>
    decreases end - first
  {
    if first >= end then [] else Rows(f, v, cols, first, end - 1) + Row(f, v, end - 1, cols)
  }

  /** History and used screen rows, top to bottom, each `cols` wide; the cursor's row, or one past the last. */
  function Take<T>(f: Cell -> T, v: View, cols: nat, rows: nat): Snapshot<T>
  {
    var visible := VisibleUsed(v, cols, rows);
    var total := (v.history + visible) % U16;
    Snapshot(cols, total, v.cursorColumn % U16,
             if 0 <= v.cursorLine < visible then (v.history + v.cursorLine) % U16 else total,
             0, Rows(f, v, cols, Top(v), visible))
  }

  function Painted(v: View, cols: nat, rows: nat, p: Palette): Snapshot<CellSnapshot>
  {
    Take(Painter(p), v, cols, rows)
  }

  function Frozen(v: View, cols: nat, rows: nat): Snapshot<RawCellSnapshot>
  {
    Take(Freeze, v, cols, rows)
  }

  function ResolveAll(s: Snapshot<RawCellSnapshot>, p: Palette): Snapshot<CellSnapshot> {
    Snapshot(s.cols, s.rows, s.cursorCol, s.cursorRow, s.displayOffset,
             seq(|s.cells|, i requires 0 <= i < |s.cells| => ResolveCell(s.cells[i], p)))
  }

  lemma DeferredCell(cell: Cell, p: Palette)
    ensures ResolveCell(Freeze(cell), p) == Paint(cell, p)
  {
    DeferredColour(cell.fg, p);
    DeferredColour(cell.bg, p);
  }

  ghost predicate Resolves(raw: seq<RawCellSnapshot>, painted: seq<CellSnapshot>, p: Palette) {
    |raw| == |painted| && forall i :: 0 <= i < |raw| ==> ResolveCell(raw[i], p) == painted[i]
  }

  lemma {:induction false} DeferredRows(v: View, cols: nat, first: int, end: int, p: Palette)
    ensures Resolves(Rows(Freeze, v, cols, first, end), Rows(Painter(p), v, cols, first, end), p)
    decreases end - first
  {
    if first < end {
      DeferredRows(v, cols, first, end - 1, p);
      var raw, painted := Row(Freeze, v, end - 1, cols), Row(Painter(p), v, end - 1, cols);
      forall i | 0 <= i < |raw| ensures ResolveCell(raw[i], p) == painted[i] {
        DeferredCell(v.cell(end - 1, i), p);
      }
    }
  }

  /** DEFERRED COLOUR. Freezing a grid and resolving it later, under any palette, gives the snapshot that would have
    been painted with that palette, field for field and cell for cell. */
  lemma FreezeThenResolve(v: View, cols: nat, rows: nat, p: Palette)
    ensures ResolveAll(Frozen(v, cols, rows), p) == Painted(v, cols, rows, p)
  {
    DeferredRows(v, cols, Top(v), VisibleUsed(v, cols, rows), p);
    var a, b := ResolveAll(Frozen(v, cols, rows), p), Painted(v, cols, rows, p);
    assert a.cells == b.cells;
  }

  lemma {:induction false} RowsSize<T>(f: Cell -> T, v: View, cols: nat, first: int, end: int)
    requires first <= end
    ensures |Rows(f, v, cols, first, end)| == (end - first) * cols
    decreases end - first
  {
    if first < end {
      RowsSize(f, v, cols, first, end - 1);
      assert (end - first) * cols == (end - 1 - first) * cols + cols;
    }
  }

  /** Where a cell lands: row-major, the oldest history line first. */
  lemma {:induction false} RowsAt<T>(f: Cell -> T, v: View, cols: nat, first: int, end: int, row: int, col: nat)
    requires first <= row < end && col < cols
    ensures |Rows(f, v, cols, first, end)| == (end - first) * cols
    ensures 0 <= (row - first) * cols + col < (end - first) * cols
    ensures Rows(f, v, cols, first, end)[(row - first) * cols + col] == f(v.cell(row, col))
    decreases end - first
  {
    RowsSize(f, v, cols, first, end);
    RowsSize(f, v, cols, first, end - 1);
    assert (row - first) * cols + cols <= (end - first) * cols by {
      assert (row - first) * cols + cols == (row + 1 - first) * cols;
      MulMonotone(row + 1 - first, end - first, cols);
    }
    if row < end - 1 {
      RowsAt(f, v, cols, first, end - 1, row, col);
    }
  }

  lemma MulMonotone(a: int, b: int, c: nat)
    requires a <= b
    ensures a * c <= b * c
  {
    assert b * c - a * c == (b - a) * c;
  }

  /** ROW COUNTS. Both snapshots report the used rows; the cells fill whole rows; and the reported count is the true
    one exactly when history and used rows together fit 16 bits. */
  lemma RowCountsAgree(v: View, cols: nat, rows: nat, p: Palette)
    ensures Frozen(v, cols, rows).rows == Painted(v, cols, rows, p).rows == UsedRows(v, cols, rows)
    ensures |Frozen(v, cols, rows).cells| == |Painted(v, cols, rows, p).cells|
    ensures |Frozen(v, cols, rows).cells| == (v.history + VisibleUsed(v, cols, rows)) * cols
    ensures cols > 0 ==>
              (|Frozen(v, cols, rows).cells| == UsedRows(v, cols, rows) * cols
               <==> v.history + VisibleUsed(v, cols, rows) < U16)
  {
    var visible := VisibleUsed(v, cols, rows);
    var total := v.history + visible;
    RowsSize(Freeze, v, cols, Top(v), visible);
    RowsSize(Painter(p), v, cols, Top(v), visible);
    if cols > 0 && total >= U16 {
      MulMonotone(total % U16 + 1, total, cols);
      assert (total % U16 + 1) * cols == total % U16 * cols + cols;
    }
  }

  /** The reported last content row is the maximum of the cursor row and the lowest inked row. */
  lemma LastContentIsMaximum(v: View, cols: nat, rows: nat, r: int)
    ensures LastContent(v, cols, rows) == Some(r) <==>
            0 <= r < rows && InUse(v, r, cols) && forall k :: r < k < rows ==> !InUse(v, k, cols)
  {
    hide InUse;
    var found := LastContent(v, cols, rows);
    if found.Some? && 0 <= r < rows && InUse(v, r, cols) {
      assert r <= found.value;
    }
  }

  // ---- the object ----

  method PackFlags(f: set<CellFlag>) returns (flags: nat)
    ensures flags == FlagBits(f) && flags < 64
    ensures forall flag :: Has(flags, flag) <==> flag in f && Weight(flag) > 0
  {
    flags := 0;
    if Bold in f { flags := flags + 1; }
    if Underline in f { flags := flags + 2; }
    if Inverse in f { flags := flags + 4; }
    if Italic in f { flags := flags + 8; }
    if WideChar in f { flags := flags + 16; }
    if WideCharSpacer in f { flags := flags + 32; }
    forall flag: CellFlag ensures Has(flags, flag) <==> flag in f && Weight(flag) > 0 {
      FlagsCanBeRead(f, flag);
    }
  }

  class BlockGrid {
    const emulator: Emulator
    var cols: nat
    var rows: nat
    var input: seq<GridInput>

    function State(): GridState
      reads this
    {
      GridState(cols, rows, input)
    }

    function Screen(): View
      reads this
    {
      emulator(input)
    }

    constructor (emulator: Emulator, cols: nat, rows: nat)
      ensures this.emulator == emulator
      ensures State() == GridState(cols, rows, [Resized(cols, rows)])
    {
      this.emulator := emulator;
      this.cols, this.rows, this.input := cols, rows, [Resized(cols, rows)];
    }

    method Feed(bytes: seq<byte>)
      modifies this
      ensures State() == old(State()).(input := old(input) + Typed(bytes))
    {
      if |bytes| == 0 { return; }
      input := input + Typed(bytes);
    }

    method Resize(newCols: nat, newRows: nat)
      modifies this
      ensures State() == GridState(newCols, newRows, old(input) + [Resized(newCols, newRows)])
    {
      input := input + [Resized(newCols, newRows)];
      cols, rows := newCols, newRows;
    }

    method LastContentRow() returns (best: Option<int>)
      ensures best == LastContent(Screen(), cols, rows)
    {
      var v := Screen();
      best := if 0 <= v.cursorLine < rows then Some(v.cursorLine) else None;
      var row := rows - 1;
      while row >= 0
        invariant -1 <= row < rows
        invariant best == if OnScreen(v, rows) then Some(v.cursorLine) else None
        invariant forall k :: row < k < rows ==> !InUse(v, k, cols)
        invariant best.Some? ==> best.value <= row
      {
        if best.Some? && best.value >= row { break; }
        var col := 0;
        while col < cols
          invariant 0 <= col <= cols
          invariant forall c :: 0 <= c < col ==> !Inked(v.cell(row, c))
        {
          var cell := v.cell(row, col);
          if cell.c != SPACE || cell.flags != {} {
            LastContentIsMaximum(v, cols, rows, row);
            return Some(row);
          }
          col := col + 1;
        }
        row := row - 1;
      }
      if best.Some? { LastContentIsMaximum(v, cols, rows, best.value); }
    }

    method CountUsedRows() returns (n: nat)
      requires rows >= 1 && rows < U16
      ensures n == UsedRows(Screen(), cols, rows)
    {
      var v := Screen();
      var history := v.history % U16;
      var last := LastContentRow();
      var visible := if last.Some? then Min(last.value + 1, U16 - 1) else Max(1, Min(v.cursorLine + 1, rows));
      n := (history + visible) % U16;
    }

    method SnapshotRaw() returns (s: Snapshot<RawCellSnapshot>)
      requires rows >= 1
      ensures s == Frozen(Screen(), cols, rows)
    {
      hide FlagBits;
      var v := Screen();
      var last := LastContentRow();
      var visible := if last.Some? then last.value + 1 else Max(1, Min(v.cursorLine + 1, rows));
      var total := (v.history + visible) % U16;
      var cells: seq<RawCellSnapshot> := [];
      var row := Top(v);
      while row < visible
        invariant Top(v) <= row <= visible
        invariant cells == Rows(Freeze, v, cols, Top(v), row)
      {
        var col := 0;
        while col < cols
          invariant 0 <= col <= cols
          invariant cells == Rows(Freeze, v, cols, Top(v), row) + Row(Freeze, v, row, col)
        {
          var cell := v.cell(row, col);
          var flags := PackFlags(cell.flags);
          var ch := if WideCharSpacer in cell.flags || (cell.c == SPACE && cell.flags == {}) then 0 else cell.c;
          cells := cells + [RawCellSnapshot(ch, Keep(cell.fg), Keep(cell.bg), flags)];
          assert Row(Freeze, v, row, col + 1) == Row(Freeze, v, row, col) + [Freeze(cell)];
          col := col + 1;
        }
        row := row + 1;
      }
      var cursorRow := if 0 <= v.cursorLine < visible then (v.history + v.cursorLine) % U16 else total;
      s := Snapshot(cols, total, v.cursorColumn % U16, cursorRow, 0, cells);
    }

    method PaintSnapshot(p: Palette) returns (s: Snapshot<CellSnapshot>)
      requires rows >= 1
      ensures s == Painted(Screen(), cols, rows, p)
    {
      hide FlagBits, ToRgba;
      var v := Screen();
      ghost var paint := Painter(p);
      var last := LastContentRow();
      var visible := if last.Some? then last.value + 1 else Max(1, Min(v.cursorLine + 1, rows));
      var total := (v.history + visible) % U16;
      var cells: seq<CellSnapshot> := [];
      var row := Top(v);
      while row < visible
        invariant Top(v) <= row <= visible
        invariant cells == Rows(paint, v, cols, Top(v), row)
      {
        var col := 0;
        while col < cols
          invariant 0 <= col <= cols
          invariant cells == Rows(paint, v, cols, Top(v), row) + Row(paint, v, row, col)
        {
          var cell := v.cell(row, col);
          var flags := PackFlags(cell.flags);
          var ch := if WideCharSpacer in cell.flags || (cell.c == SPACE && cell.flags == {}) then 0 else cell.c;
          cells := cells + [CellSnapshot(ch, ToRgba(cell.fg, p), ToRgba(cell.bg, p), flags)];
          assert Row(paint, v, row, col + 1) == Row(paint, v, row, col) + [Paint(cell, p)];
          col := col + 1;
        }
        row := row + 1;
      }
      var cursorRow := if 0 <= v.cursorLine < visible then (v.history + v.cursorLine) % U16 else total;
      s := Snapshot(cols, total, v.cursorColumn % U16, cursorRow, 0, cells);
    }
  }
}
