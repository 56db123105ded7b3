/** Where the blocks lie in the scrolled list, which header is pinned, and which block a touch hits. */
module BlockList {
  import opened Bytes
  import Scroll

  /** Points between blocks. */
  const INTER_BLOCK_GAP_PT: real := 0.0

  datatype BlockSnapshot = BlockSnapshot(id: nat, bodyRows: nat)
  datatype BlockRange = BlockRange(block: BlockSnapshot, top: real, bot: real)

  /** Heights of a header band and of one text row. */
  datatype Metrics = Metrics(header: real, row: real)

  predicate Sensible(m: Metrics) {
    m.header >= 0.0 && m.row >= 0.0
  }

  function BodyHeight(b: BlockSnapshot, m: Metrics): real {
    b.bodyRows as real * m.row
  }

  /** Everything up to the `n`-th block's top. */
  function Before(blocks: seq<BlockSnapshot>, m: Metrics, n: nat): real
    requires n <= |blocks|
  {
    if n == 0 then 0.0
    else Before(blocks, m, n - 1) + m.header + BodyHeight(blocks[n - 1], m) + INTER_BLOCK_GAP_PT
  }

  function Range(blocks: seq<BlockSnapshot>, m: Metrics, i: nat): BlockRange
    requires i < |blocks|
  {
    var top := Before(blocks, m, i);
    BlockRange(blocks[i], top, top + m.header + BodyHeight(blocks[i], m))
  }

  ghost predicate AreRanges(ranges: seq<BlockRange>, blocks: seq<BlockSnapshot>, m: Metrics) {
    |ranges| == |blocks| && forall i :: 0 <= i < |blocks| ==> ranges[i] == Range(blocks, m, i)
  }

  method ComputeBlockRanges(blocks: seq<BlockSnapshot>, m: Metrics) returns (out: seq<BlockRange>)
    ensures AreRanges(out, blocks, m)
  {
    out := [];
    var y := 0.0;
    for n := 0 to |blocks|
      invariant |out| == n && y == Before(blocks, m, n)
      invariant forall i :: 0 <= i < n ==> out[i] == Range(blocks, m, i)
    {
      var top := y;
      var bot := top + m.header + BodyHeight(blocks[n], m);
      out := out + [BlockRange(blocks[n], top, bot)];
      y := bot + INTER_BLOCK_GAP_PT;
    }
  }

  method ContentHeight(blocks: seq<BlockSnapshot>, m: Metrics) returns (total: real)
    ensures total == Before(blocks, m, |blocks|)
    ensures |blocks| > 0 ==> total == Range(blocks, m, |blocks| - 1).bot
  {
    total := 0.0;
    for n := 0 to |blocks|
      invariant total == Before(blocks, m, n)
    {
      total := total + m.header + BodyHeight(blocks[n], m) + INTER_BLOCK_GAP_PT;
    }
  }

  predicate Holds(r: BlockRange, y: real) {
    r.top <= y < r.bot
  }

  lemma {:induction false} TopsAscend(blocks: seq<BlockSnapshot>, m: Metrics, i: nat, j: nat)
    requires Sensible(m) && i <= j <= |blocks|
    ensures 0.0 <= Before(blocks, m, i) <= Before(blocks, m, j)
  {
    if i < j {
      TopsAscend(blocks, m, i, j - 1);
      BodyIsPositive(blocks[j - 1], m);
    } else if i > 0 {
      TopsAscend(blocks, m, i - 1, i - 1);
      BodyIsPositive(blocks[i - 1], m);
    }
  }

  lemma BodyIsPositive(b: BlockSnapshot, m: Metrics)
    requires Sensible(m)
    ensures BodyHeight(b, m) >= 0.0
  {
    Scroll.MulMonotone(0.0, m.row, b.bodyRows as real);
  }

  /** Ranges abut and never overlap. */
  lemma RangesAbut(blocks: seq<BlockSnapshot>, m: Metrics, i: nat, j: nat)
    requires Sensible(m) && i < j < |blocks|
    ensures Range(blocks, m, i).bot <= Range(blocks, m, j).top
    ensures j == i + 1 ==> Range(blocks, m, i).bot == Range(blocks, m, j).top
  {
    TopsAscend(blocks, m, i + 1, j);
  }

  lemma {:induction false} SomeRangeHolds(blocks: seq<BlockSnapshot>, m: Metrics, n: nat, y: real)
    requires n <= |blocks| && 0.0 <= y < Before(blocks, m, n)
    ensures exists i :: 0 <= i < n && Holds(Range(blocks, m, i), y)
  {
    if y < Before(blocks, m, n - 1) {
      SomeRangeHolds(blocks, m, n - 1, y);
    } else {
      assert Holds(Range(blocks, m, n - 1), y);
    }
  }

  /** TILING. A height lies in the content exactly when some block's range holds it, and then only one does. */
  lemma RangesTile(ranges: seq<BlockRange>, blocks: seq<BlockSnapshot>, m: Metrics, y: real)
    requires Sensible(m) && AreRanges(ranges, blocks, m)
    ensures 0.0 <= y < Before(blocks, m, |blocks|) <==> exists i :: 0 <= i < |ranges| && Holds(ranges[i], y)
    ensures forall i, j :: 0 <= i < |ranges| && 0 <= j < |ranges| && Holds(ranges[i], y) && Holds(ranges[j], y) ==>
              i == j
  {
    if 0.0 <= y < Before(blocks, m, |blocks|) {
      SomeRangeHolds(blocks, m, |blocks|, y);
      var i :| 0 <= i < |blocks| && Holds(Range(blocks, m, i), y);
      assert Holds(ranges[i], y);
    }
    forall i | 0 <= i < |ranges| && Holds(ranges[i], y) ensures 0.0 <= y < Before(blocks, m, |blocks|) {
      TopsAscend(blocks, m, i, i);
      TopsAscend(blocks, m, i + 1, |blocks|);
    }
    forall i, j | 0 <= i < j < |ranges| ensures !(Holds(ranges[i], y) && Holds(ranges[j], y)) {
      RangesAbut(blocks, m, i, j);
    }
  }

  // ---- the pinned header ----

  /** The last range that holds the scroll position. */
  function StickyIndex(ranges: seq<BlockRange>, y: real): (r: Option<nat>)
    ensures r.Some? ==> r.value < |ranges| && Holds(ranges[r.value], y)
    ensures forall i :: (if r.Some? then r.value + 1 else 0) <= i < |ranges| ==> !Holds(ranges[i], y)
  {
    if |ranges| == 0 then None
    else if Holds(ranges[|ranges| - 1], y) then Some(|ranges| - 1)
    else StickyIndex(ranges[..|ranges| - 1], y)
  }

  method StickyActiveIndex(ranges: seq<BlockRange>, scrollY: real) returns (found: Option<nat>)
    ensures found == StickyIndex(ranges, scrollY)
  {
    if |ranges| == 0 { return None; }
    found := None;
    for idx := 0 to |ranges|
      invariant found == StickyIndex(ranges[..idx], scrollY)
    {
      assert ranges[..idx + 1][..idx] == ranges[..idx];
      if ranges[idx].top <= scrollY && ranges[idx].bot > scrollY { found := Some(idx); }
    }
    assert ranges[..|ranges|] == ranges;
  }

  datatype StickyDescriptor = StickyDescriptor(blockId: nat, index: nat, pinnedY: real)

  function PinnedY(ranges: seq<BlockRange>, scrollY: real, header: real, active: nat): real
    requires active < |ranges|
  {
    var natural := Scroll.RMax(ranges[active].top - scrollY, 0.0);
    if active + 1 < |ranges| then Scroll.RMin(natural, ranges[active + 1].top - scrollY - header) else natural
  }

  method BuildStickyDescriptor(ranges: seq<BlockRange>, scrollY: real, header: real)
    returns (d: Option<StickyDescriptor>)
    ensures d.Some? <==> StickyIndex(ranges, scrollY).Some?
    ensures d.Some? ==>
              var i := StickyIndex(ranges, scrollY).value;
              d.value == StickyDescriptor(ranges[i].block.id, i, PinnedY(ranges, scrollY, header, i))
  {
    var active := StickyActiveIndex(ranges, scrollY);
    if active.None? { return None; }
    var i := active.value;
    var natural := Scroll.RMax(ranges[i].top - scrollY, 0.0);
    var pinned := natural;
    if i + 1 < |ranges| {
      pinned := Scroll.RMin(natural, ranges[i + 1].top - scrollY - header);
    }
    d := Some(StickyDescriptor(ranges[i].block.id, i, pinned));
  }

  /** THE PINNED HEADER. Inside the content the header of exactly the block at the scroll position is pinned: at the top
    edge or pushed up by less than its own height, so that its band never covers the next block's header; at the top
    edge exactly when the next header is at least one band away. */
  lemma PinnedHeaderIsRight(ranges: seq<BlockRange>, blocks: seq<BlockSnapshot>, m: Metrics, scrollY: real)
    requires Sensible(m) && m.header > 0.0 && AreRanges(ranges, blocks, m)
    ensures StickyIndex(ranges, scrollY).Some? <==> 0.0 <= scrollY < Before(blocks, m, |blocks|)
    ensures forall i :: 0 <= i < |ranges| && Holds(ranges[i], scrollY) ==>
              && StickyIndex(ranges, scrollY) == Some(i)
              && 0.0 - m.header < PinnedY(ranges, scrollY, m.header, i) <= 0.0
              && (i + 1 < |ranges| ==>
                   PinnedY(ranges, scrollY, m.header, i) + m.header <= ranges[i + 1].top - scrollY)
              && (PinnedY(ranges, scrollY, m.header, i) == 0.0
                  <==> i + 1 < |ranges| ==> m.header <= ranges[i + 1].top - scrollY)
  {
    RangesTile(ranges, blocks, m, scrollY);
    forall i | 0 <= i && i + 1 < |ranges| ensures ranges[i].bot == ranges[i + 1].top {
      RangesAbut(blocks, m, i, i + 1);
    }
  }

  // ---- hit testing ----

  datatype BlockHit = BlockHit(blockId: nat, bodyTop: real, rows: int, cols: int)

  function HitOf(r: BlockRange, header: real, cols: int): BlockHit {
    BlockHit(r.block.id, r.top + header, WrapI32(r.block.bodyRows), cols)
  }

  predicate InBody(r: BlockRange, y: real, header: real) {
    r.top + header <= y < r.bot
  }

  method BlockHitTest(ranges: seq<BlockRange>, y: real, header: real, cols: int)
    returns (hit: Option<BlockHit>, ghost at: nat)
    ensures hit.Some? ==>
              at < |ranges| && InBody(ranges[at], y, header) && hit.value == HitOf(ranges[at], header, cols)
              && forall i :: 0 <= i < at ==> !InBody(ranges[i], y, header)
    ensures hit.None? ==> forall i :: 0 <= i < |ranges| ==> !InBody(ranges[i], y, header)
  {
    at := 0;
    for n := 0 to |ranges|
      invariant forall i :: 0 <= i < n ==> !InBody(ranges[i], y, header)
    {
      var r := ranges[n];
      var bodyTop := r.top + header;
      if y >= bodyTop && y < r.bot {
        at := n;
        return Some(BlockHit(r.block.id, bodyTop, WrapI32(r.block.bodyRows), cols)), n;
      }
    }
    hit := None;
  }

  /** A touch hits the body of the very block whose range holds it, and nothing exactly over headers and outside. */
  lemma HitsAgreeWithRanges(ranges: seq<BlockRange>, blocks: seq<BlockSnapshot>, m: Metrics, y: real, i: nat)
    requires Sensible(m) && AreRanges(ranges, blocks, m) && i < |ranges|
    ensures InBody(ranges[i], y, m.header) <==> StickyIndex(ranges, y) == Some(i) && y >= ranges[i].top + m.header
  {
    RangesTile(ranges, blocks, m, y);
  }
}
