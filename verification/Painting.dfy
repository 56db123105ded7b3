/** What the glyph atlas' texture shows: which requests paint over what is still in use. */
module Painting {
  import opened Bytes
  import opened Atlas

  // ---- from the constructor on ----

  /** The constructor's state is safe, whatever printable ASCII looks like. */
  lemma {:induction false} PreloadedIsSafe(cellW: nat, cellH: nat, ascent: nat, ascii: nat -> Option<Raster>, end: nat)
    requires 2 * Max(cellW, 1) <= ATLAS_PX
    ensures var s := Preloaded(New(cellW, cellH, ascent), ascii, end);
            Inv(s) && s.cellW == Max(cellW, 1) && s.cellH == Max(cellH, 1)
    decreases end
  {
    NewIsSafe(cellW, cellH, ascent);
    hide Inv, EnsureCell;
    if end > 0x20 {
      PreloadedIsSafe(cellW, cellH, ascent, ascii, end - 1);
      var s := Preloaded(New(cellW, cellH, ascent), ascii, end - 1);
      CellIsSafe(s, GlyphKey(end - 1, false, false), false, ascii(end - 1));
      CellKeepsSize(s, GlyphKey(end - 1, false, false), false, ascii(end - 1));
    }
  }

  lemma CellKeepsSize(s: AtlasState, key: GlyphKey, wide: bool, raster: Option<Raster>)
    ensures EnsureCell(s, key, wide, raster).cellW == s.cellW && EnsureCell(s, key, wide, raster).cellH == s.cellH
  {
    hide PlaceCell, SlotPixels;
  }

  /** EVERY RUN IS SAFE. From the constructor on, every run of glyph, icon and reset requests packs safely. */
  lemma RunsAreSafe(cellW: nat, cellH: nat, ascent: nat, ascii: nat -> Option<Raster>, ops: seq<Op>)
    requires 2 * Max(cellW, 1) <= ATLAS_PX && forall i :: 0 <= i < |ops| ==> Fits(ops[i])
    ensures Inv(DoAll(Preloaded(New(cellW, cellH, ascent), ascii, 0x7F), ops))
  {
    hide Inv;
    PreloadedIsSafe(cellW, cellH, ascent, ascii, 0x7F);
    RunsKeepInv(Preloaded(New(cellW, cellH, ascent), ascii, 0x7F), ops);
  }

  // ---- what one request paints ----

  /** The slot a request is about to be handed, and for whom: cached keys, characters there is no picture of, empty
    bitmaps and full sections get none. */
  function Spot(s: AtlasState, op: Op): Option<(Owner, Rect)> {
    match op
    case Cell(key, wide, raster) =>
      if key in s.glyphs || !IsChar(key.codepoint) || raster.None? then None
      else For(CellOf(key), PlaceCell(s.cursor, SlotWidth(s, wide || raster.value.isColor), s.cellH).1)
    case UIGlyph(text, hundredths, bitmap) =>
      if |text| == 0 || UIGlyphKey(text[0], hundredths) in s.uiGlyphs || bitmap.None? then None
      else For(GlyphOf(UIGlyphKey(text[0], hundredths)),
               PlacePanel(s.panelCursor, bitmap.value.width, bitmap.value.height).1)
    case Icon(icon, decoded) =>
      if icon in s.icons then None
      else For(IconOf(icon), PlacePanel(s.panelCursor, decoded.width, decoded.height).1)
    case Reset => None
  }

  function For(owner: Owner, r: Option<Rect>): Option<(Owner, Rect)> {
    if r.Some? then Some((owner, r.value)) else None
  }

  /** A request paints its slot, caches it, and changes nothing else that is shown. */
  lemma RequestPaintsItsSpot(s: AtlasState, op: Op)
    ensures var t := Do(s, op);
            match Spot(s, op)
            case None =>
              && t.uploads == s.uploads
              && forall o :: Cached(t, o) == Cached(s, o) || (op.Reset? && Cached(t, o) == None)
            case Some((owner, r)) =>
              && |t.uploads| == |s.uploads| + 1 && t.uploads[..|s.uploads|] == s.uploads
              && t.uploads[|s.uploads|].owner == owner && t.uploads[|s.uploads|].rect == r
              && Cached(s, owner) == None && Cached(t, owner) == Some(r) && !owner.Solid?
              && forall o :: o != owner ==> Cached(t, o) == Cached(s, o)
  {
    hide PlaceCell, PlacePanel, SlotPixels;
  }

  lemma LastCoverGrows(us: seq<Upload>, vs: seq<Upload>, x: nat, y: nat)
    requires |vs| == |us| + 1 && vs[..|us|] == us
    ensures LastCover(vs, x, y) == if Covers(vs[|us|].rect, x, y) then Some(|us|) else LastCover(us, x, y)
  {
  }

  /** Two slots that are not apart share a texel. */
  lemma Shared(a: Rect, b: Rect) returns (x: nat, y: nat)
    requires a.w > 0 && a.h > 0 && b.w > 0 && b.h > 0
    ensures !Apart(a, b) <==> Covers(a, x, y) && Covers(b, x, y)
    ensures Apart(a, b) ==> forall u, v :: !(Covers(a, u, v) && Covers(b, u, v))
  {
    x, y := Max(a.x, b.x), Max(a.y, b.y);
  }

  // ---- the white block ----

  /** Underlines sample white. */
  ghost predicate SolidIntact(s: AtlasState) {
    forall x, y :: Covers(SOLID, x, y) ==> LastCover(s.uploads, x, y) == Some(0)
  }

  predicate ReachesCorner(r: Rect) {
    r.x + r.w > ATLAS_PX - SOLID_PX && r.y + r.h > ATLAS_PX - SOLID_PX
  }

  lemma SpotIsSound(s: AtlasState, op: Op)
    requires Inv(s) && Fits(op) && 2 * s.cellW <= ATLAS_PX && Spot(s, op).Some?
    ensures var r := Spot(s, op).value.1; OnTexture(r) && r.w > 0 && r.h > 0
  {
    InvHas(s);
    hide Inv, Cached;
    PlacedOnTextureExactlyWhen(s.cursor, s.panelCursor, Spot(s, op).value.1.w, Spot(s, op).value.1.h);
  }

  /** THE WHITE BLOCK IS PAINTED OVER, EXACTLY WHEN the slot the request is handed reaches the corner: its right edge is
    past 2044 and its lower edge is past 2044. */
  lemma RequestKeepsSolidExactlyWhen(s: AtlasState, op: Op)
    requires Inv(s) && Fits(op) && 2 * s.cellW <= ATLAS_PX && SolidIntact(s)
    ensures SolidIntact(Do(s, op)) <==> !(Spot(s, op).Some? && ReachesCorner(Spot(s, op).value.1))
  {
    RequestPaintsItsSpot(s, op);
    var t := Do(s, op);
    if Spot(s, op).Some? {
      SpotIsSound(s, op);
      hide Inv, Do, Spot, LastCover;
      var r := Spot(s, op).value.1;
      var x, y := Shared(r, SOLID);
      assert Apart(r, SOLID) <==> !ReachesCorner(r);
      LastCoverGrows(s.uploads, t.uploads, x, y);
      if Apart(r, SOLID) {
        forall u, v | Covers(SOLID, u, v) ensures LastCover(t.uploads, u, v) == Some(0) {
          LastCoverGrows(s.uploads, t.uploads, u, v);
        }
      } else {
        assert |s.uploads| > 0 by { SomeUpload(s); }
      }
    }
  }

  lemma SomeUpload(s: AtlasState)
    requires Inv(s)
    ensures |s.uploads| > 0
  {
  }

  ghost predicate SolidAlong(s: AtlasState, ops: seq<Op>)
    decreases |ops|
  {
    SolidIntact(s) && (|ops| == 0 || SolidAlong(Do(s, ops[0]), ops[1..]))
  }

  predicate NoneReachesCorner(s: AtlasState, ops: seq<Op>)
    decreases |ops|
  {
    |ops| == 0 ||
    (!(Spot(s, ops[0]).Some? && ReachesCorner(Spot(s, ops[0]).value.1)) && NoneReachesCorner(Do(s, ops[0]), ops[1..]))
  }

  /** Over every run: the block stays white exactly as long as no slot reaches the corner. */
  lemma {:induction false} SolidStaysExactlyWhen(s: AtlasState, ops: seq<Op>)
    requires Inv(s) && 2 * s.cellW <= ATLAS_PX && SolidIntact(s) && forall i :: 0 <= i < |ops| ==> Fits(ops[i])
    ensures SolidAlong(s, ops) <==> NoneReachesCorner(s, ops)
    decreases |ops|
  {
    hide Inv, Do, Spot, SolidIntact, Fits;
    if |ops| > 0 {
      RequestKeepsSolidExactlyWhen(s, ops[0]);
      DoKeepsInv(s, ops[0]);
      if SolidIntact(Do(s, ops[0])) {
        SolidStaysExactlyWhen(Do(s, ops[0]), ops[1..]);
      } else {
        NotAlong(Do(s, ops[0]), ops[1..]);
      }
    }
  }

  lemma NotAlong(s: AtlasState, ops: seq<Op>)
    ensures SolidAlong(s, ops) ==> SolidIntact(s)
  {
  }

  // ---- cached slots ----

  /** The texel shows what was uploaded for its owner. */
  predicate ShowsOwn(s: AtlasState, o: Owner, x: nat, y: nat) {
    var shown := LastCover(s.uploads, x, y);
    shown.Some? && s.uploads[shown.value].owner == o && Cached(s, o) == Some(s.uploads[shown.value].rect)
  }

  /** Every texel of every cached slot does. */
  ghost predicate AllShown(s: AtlasState) {
    forall o, x, y :: Cached(s, o).Some? && Covers(Cached(s, o).value, x, y) ==> ShowsOwn(s, o, x, y)
  }

  /** The slot about to be handed out lies on no cached one. */
  ghost predicate LandsFree(s: AtlasState, op: Op) {
    Spot(s, op).Some? ==> forall o :: Cached(s, o).Some? ==> Apart(Spot(s, op).value.1, Cached(s, o).value)
  }

  lemma CachedIsSound(s: AtlasState, o: Owner)
    requires Inv(s) && Cached(s, o).Some?
    ensures Cached(s, o).value.w > 0 && Cached(s, o).value.h > 0
  {
    assert Backed(s, o);
    var i :| 0 <= i < |s.uploads| && Live(s, i) && s.uploads[i].owner == o;
    assert PlacedOk(s, i);
  }

  lemma OthersShow(s: AtlasState, t: AtlasState, owner: Owner, r: Rect, o: Owner, x: nat, y: nat)
    requires |t.uploads| == |s.uploads| + 1 && t.uploads[..|s.uploads|] == s.uploads
    requires t.uploads[|s.uploads|].owner == owner && t.uploads[|s.uploads|].rect == r && Cached(t, owner) == Some(r)
    requires o != owner ==> Cached(t, o) == Cached(s, o)
    ensures o == owner && Covers(r, x, y) ==> ShowsOwn(t, o, x, y)
    ensures o != owner && !Covers(r, x, y) ==> ShowsOwn(t, o, x, y) == ShowsOwn(s, o, x, y)
    ensures o != owner && Covers(r, x, y) ==> !ShowsOwn(t, o, x, y)
  {
    hide Cached;
    LastCoverGrows(s.uploads, t.uploads, x, y);
    var shown := LastCover(s.uploads, x, y);
    if shown.Some? { assert t.uploads[shown.value] == s.uploads[shown.value]; }
  }

  /** A REQUEST PAINTS OVER A CACHED SLOT, EXACTLY WHEN the slot it is handed lies on one. */
  lemma RequestKeepsAllShownExactlyWhen(s: AtlasState, op: Op)
    requires Inv(s) && Fits(op) && 2 * s.cellW <= ATLAS_PX && AllShown(s)
    ensures AllShown(Do(s, op)) <==> LandsFree(s, op)
  {
    RequestPaintsItsSpot(s, op);
    if Spot(s, op).Some? {
      SpotIsSound(s, op);
      PaintingKeepsAllShown(s, Do(s, op), Spot(s, op).value.0, Spot(s, op).value.1);
      hide Inv, Do, Spot, LastCover, AllShown;
    } else {
      NothingPainted(s, Do(s, op));
      hide Inv, Do, Spot, LastCover, AllShown;
    }
  }

  lemma NothingPainted(s: AtlasState, t: AtlasState)
    requires AllShown(s) && t.uploads == s.uploads
    requires forall o :: Cached(t, o).Some? ==> Cached(t, o) == Cached(s, o)
    ensures AllShown(t)
  {
    hide Cached, LastCover;
    forall o, x, y | Cached(t, o).Some? && Covers(Cached(t, o).value, x, y) ensures ShowsOwn(t, o, x, y) {
      assert ShowsOwn(s, o, x, y);
    }
  }

  lemma PaintingKeepsAllShown(s: AtlasState, t: AtlasState, owner: Owner, r: Rect)
    requires Inv(s) && AllShown(s) && r.w > 0 && r.h > 0
    requires |t.uploads| == |s.uploads| + 1 && t.uploads[..|s.uploads|] == s.uploads
    requires t.uploads[|s.uploads|].owner == owner && t.uploads[|s.uploads|].rect == r
    requires Cached(s, owner) == None && Cached(t, owner) == Some(r)
    requires forall o :: o != owner ==> Cached(t, o) == Cached(s, o)
    ensures AllShown(t) <==> forall o :: Cached(s, o).Some? ==> Apart(r, Cached(s, o).value)
  {
    hide Inv, Cached, LastCover, ShowsOwn;
    if forall o :: Cached(s, o).Some? ==> Apart(r, Cached(s, o).value) {
      forall o, x, y | Cached(t, o).Some? && Covers(Cached(t, o).value, x, y) ensures ShowsOwn(t, o, x, y) {
        OthersShow(s, t, owner, r, o, x, y);
      }
    }
    forall o | Cached(s, o).Some? && !Apart(r, Cached(s, o).value) ensures !AllShown(t) {
      CachedIsSound(s, o);
      var x, y := Shared(r, Cached(s, o).value);
      OthersShow(s, t, owner, r, o, x, y);
    }
  }

  ghost predicate ShownAlong(s: AtlasState, ops: seq<Op>)
    decreases |ops|
  {
    AllShown(s) && (|ops| == 0 || ShownAlong(Do(s, ops[0]), ops[1..]))
  }

  ghost predicate AllLandFree(s: AtlasState, ops: seq<Op>)
    decreases |ops|
  {
    |ops| == 0 || (LandsFree(s, ops[0]) && AllLandFree(Do(s, ops[0]), ops[1..]))
  }

  /** NOTHING CACHED IS PAINTED OVER, EXACTLY WHEN. Over every run, resets included: all cached slots show their own
    bitmaps all along exactly when every slot handed out lies on no cached one. */
  lemma {:induction false} CachedSlotsShowExactlyWhen(s: AtlasState, ops: seq<Op>)
    requires Inv(s) && 2 * s.cellW <= ATLAS_PX && AllShown(s) && forall i :: 0 <= i < |ops| ==> Fits(ops[i])
    ensures ShownAlong(s, ops) <==> AllLandFree(s, ops)
    decreases |ops|
  {
    hide Inv, Do, LandsFree, AllShown, Fits;
    if |ops| > 0 {
      RequestKeepsAllShownExactlyWhen(s, ops[0]);
      DoKeepsInv(s, ops[0]);
      if AllShown(Do(s, ops[0])) {
        CachedSlotsShowExactlyWhen(Do(s, ops[0]), ops[1..]);
      } else {
        NotShownAlong(Do(s, ops[0]), ops[1..]);
      }
    }
  }

  lemma NotShownAlong(s: AtlasState, ops: seq<Op>)
    ensures ShownAlong(s, ops) ==> AllShown(s)
  {
    hide AllShown;
  }

  /** Slots of one section never meet: only a slot of the other section can be landed on. */
  lemma OnlyTheOtherSection(s: AtlasState, op: Op, o: Owner)
    requires Inv(s) && Fits(op) && 2 * s.cellW <= ATLAS_PX && Spot(s, op).Some? && Cached(s, o).Some?
    requires !Apart(Spot(s, op).value.1, Cached(s, o).value)
    ensures !SameSection(Spot(s, op).value.0, o)
  {
    RequestPaintsItsSpot(s, op);
    DoKeepsInv(s, op);
    var t := Do(s, op);
    var n := |s.uploads|;
    assert Backed(s, o);
    var i :| 0 <= i < |s.uploads| && Live(s, i) && s.uploads[i].owner == o;
    assert PlacedOk(s, i) && t.uploads[i] == s.uploads[i];
    assert PairOk(t, i, n);
    hide Inv, Do, Spot, PlacedOk;
  }

  lemma NewShows(cellW: nat, cellH: nat, ascent: nat)
    ensures SolidIntact(New(cellW, cellH, ascent)) && AllShown(New(cellW, cellH, ascent))
  {
  }

  // ---- what stays painted over ----

  lemma SolidStaysBroken(s: AtlasState, op: Op)
    requires Inv(s) && !SolidIntact(s)
    ensures !SolidIntact(Do(s, op))
  {
    SomeUpload(s);
    RequestPaintsItsSpot(s, op);
    var t := Do(s, op);
    hide Inv, Do, Spot, LastCover;
    var x, y :| Covers(SOLID, x, y) && LastCover(s.uploads, x, y) != Some(0);
    if |t.uploads| > |s.uploads| { LastCoverGrows(s.uploads, t.uploads, x, y); }
    assert LastCover(t.uploads, x, y) != Some(0);
  }

  lemma CachedStaysBroken(s: AtlasState, op: Op)
    requires !AllShown(s) && !op.Reset?
    ensures !AllShown(Do(s, op))
  {
    RequestPaintsItsSpot(s, op);
    var t := Do(s, op);
    hide Do, Spot, LastCover, ShowsOwn, Cached;
    var o, x, y :| Cached(s, o).Some? && Covers(Cached(s, o).value, x, y) && !ShowsOwn(s, o, x, y);
    if |t.uploads| > |s.uploads| {
      var u := t.uploads[|s.uploads|];
      OthersShow(s, t, u.owner, u.rect, o, x, y);
    } else {
      SameShows(s, t, o, x, y);
    }
    assert Cached(t, o) == Cached(s, o) && !ShowsOwn(t, o, x, y);
  }

  lemma SameShows(s: AtlasState, t: AtlasState, o: Owner, x: nat, y: nat)
    requires t.uploads == s.uploads && Cached(t, o) == Cached(s, o)
    ensures ShowsOwn(t, o, x, y) == ShowsOwn(s, o, x, y)
  {
    hide Cached, LastCover;
  }

  // ---- uniform cells ----

  /** Requests for narrow characters, none of them asked for before. */
  predicate Fresh(s: AtlasState, keys: seq<GlyphKey>, rasters: seq<Raster>) {
    && |keys| == |rasters| && s.cursor == Cursor(0, 0)
    && (forall i :: 0 <= i < |keys| ==> IsChar(keys[i].codepoint) && keys[i] !in s.glyphs && !rasters[i].isColor)
    && forall i, j :: 0 <= i < j < |keys| ==> keys[i] != keys[j]
  }

  function Cells(keys: seq<GlyphKey>, rasters: seq<Raster>): seq<Op>
    requires |keys| == |rasters|
  {
    seq(|keys|, i requires 0 <= i < |keys| => Cell(keys[i], false, Some(rasters[i])))
  }

  function CellRect(w: nat, h: nat, i: nat): Rect
    requires 0 < w && Count(w) > 0
  {
    Rect(Times(ColOf(i, Count(w)), w), Times(RowOf(i, Count(w)), h), w, h)
  }

  lemma CountIsSome(w: nat)
    requires 0 < w <= ATLAS_PX
    ensures Count(w) > 0
  {
    FitCount(0, w);
    TimesStep(0, w);
  }

  lemma {:induction false} DoAllLast(s: AtlasState, ops: seq<Op>, op: Op)
    ensures DoAll(s, ops + [op]) == Do(DoAll(s, ops), op)
    decreases |ops|
  {
    hide Do;
    if |ops| == 0 {
      assert ops + [op] == [op] && [op][1..] == [];
    } else {
      assert (ops + [op])[1..] == ops[1..] + [op];
      DoAllLast(Do(s, ops[0]), ops[1..], op);
    }
  }

  lemma CellsLast(keys: seq<GlyphKey>, rasters: seq<Raster>)
    requires |keys| == |rasters| > 0
    ensures var n := |keys| - 1;
            Cells(keys, rasters) == Cells(keys[..n], rasters[..n]) + [Cell(keys[n], false, Some(rasters[n]))]
  {
  }

  lemma NoCellsDone(s: AtlasState, keys: seq<GlyphKey>, rasters: seq<Raster>)
    requires |keys| == |rasters| == 0
    ensures DoAll(s, Cells(keys, rasters)) == s
  {
    assert Cells(keys, rasters) == [];
  }

  /** A run of fresh narrow cells: size, cursor and cached keys. */
  lemma {:induction false} CellsRun(s: AtlasState, keys: seq<GlyphKey>, rasters: seq<Raster>)
    requires Fresh(s, keys, rasters)
    ensures var t := DoAll(s, Cells(keys, rasters));
            && t.cellW == s.cellW && t.cellH == s.cellH && t.cursor == CursorAfter(s.cellW, s.cellH, |keys|)
            && t.uiGlyphs == s.uiGlyphs && t.icons == s.icons
            && (forall k :: k in t.glyphs && k !in s.glyphs ==> k in keys)
    decreases |keys|
  {
    if |keys| == 0 {
      NoCellsDone(s, keys, rasters);
    } else {
      var n := |keys| - 1;
      CellsRun(s, keys[..n], rasters[..n]);
      CellsLast(keys, rasters);
      DoAllLast(s, Cells(keys[..n], rasters[..n]), Cell(keys[n], false, Some(rasters[n])));
      hide DoAll, Cells, PlaceCell, SlotPixels;
      var t := DoAll(s, Cells(keys[..n], rasters[..n]));
      assert keys[n] !in keys[..n];
      forall k | k in EnsureCell(t, keys[n], false, Some(rasters[n])).glyphs && k !in s.glyphs ensures k in keys {
        assert k != keys[n] ==> k in t.glyphs;
      }
    }
  }

  /** The slot the next of them is handed. */
  lemma NextSpot(s: AtlasState, keys: seq<GlyphKey>, rasters: seq<Raster>)
    requires Fresh(s, keys, rasters) && |keys| > 0 && 0 < s.cellW <= ATLAS_PX && 0 < s.cellH
    ensures Count(s.cellW) > 0
    ensures var n := |keys| - 1; var t := DoAll(s, Cells(keys[..n], rasters[..n]));
            Spot(t, Cell(keys[n], false, Some(rasters[n]))) ==
            if n < Times(Count(s.cellH), Count(s.cellW)) then Some((CellOf(keys[n]), CellRect(s.cellW, s.cellH, n)))
            else None
  {
    var n := |keys| - 1;
    CountIsSome(s.cellW);
    CellsRun(s, keys[..n], rasters[..n]);
    CapacityIsExact(s.cellW, s.cellH, n);
    hide DoAll, Cells, PlaceCell, CursorAfter, Times, Count, RowOf, ColOf;
    assert keys[n] !in keys[..n];
  }

  /** The last of a run of fresh narrow cells. */
  lemma CellsStep(s: AtlasState, keys: seq<GlyphKey>, rasters: seq<Raster>) returns (t: AtlasState, op: Op)
    requires Inv(s) && 2 * s.cellW <= ATLAS_PX && Fresh(s, keys, rasters) && |keys| > 0
    ensures |keys| == |rasters| && s.cellW > 0 && Count(s.cellW) > 0
    ensures var n := |keys| - 1;
            && Fresh(s, keys[..n], rasters[..n]) && t == DoAll(s, Cells(keys[..n], rasters[..n]))
            && op.Cell? && Fits(op)
            && DoAll(s, Cells(keys, rasters)) == Do(t, op) && 2 * t.cellW <= ATLAS_PX
            && t.uiGlyphs == s.uiGlyphs && t.icons == s.icons
            && Spot(t, op) ==
               if n < Times(Count(s.cellH), Count(s.cellW)) then Some((CellOf(keys[n]), CellRect(s.cellW, s.cellH, n)))
               else None
  {
    hide *;
    InvHas(s);
    SameLength(s, keys, rasters);
    var n := |keys| - 1;
    FreshFront(s, keys, rasters);
    CellsRun(s, keys[..n], rasters[..n]);
    CellsLast(keys, rasters);
    op := Cell(keys[n], false, Some(rasters[n]));
    DoAllLast(s, Cells(keys[..n], rasters[..n]), op);
    NextSpot(s, keys, rasters);
    CellFits(op);
    t := DoAll(s, Cells(keys[..n], rasters[..n]));
  }

  lemma FreshFront(s: AtlasState, keys: seq<GlyphKey>, rasters: seq<Raster>)
    requires Fresh(s, keys, rasters) && |keys| > 0
    ensures Fresh(s, keys[..|keys| - 1], rasters[..|keys| - 1])
  {
  }

  lemma SameLength(s: AtlasState, keys: seq<GlyphKey>, rasters: seq<Raster>)
    requires Fresh(s, keys, rasters)
    ensures |keys| == |rasters|
  {
  }

  lemma CellFits(op: Op)
    requires op.Cell?
    ensures Fits(op)
  {
  }

  /** None of the first `n` slots of one size reaches the corner. */
  predicate CornerFree(w: nat, h: nat, n: nat)
    requires 0 < w && 0 < h && Count(w) > 0
  {
    forall i :: 0 <= i < n && i < Times(Count(h), Count(w)) ==> !ReachesCorner(CellRect(w, h, i))
  }

  lemma OneMoreCorner(w: nat, h: nat, n: nat)
    requires 0 < w && 0 < h && Count(w) > 0
    ensures CornerFree(w, h, 0)
    ensures CornerFree(w, h, n + 1) <==>
            CornerFree(w, h, n) && !(n < Times(Count(h), Count(w)) && ReachesCorner(CellRect(w, h, n)))
  {
    hide Times, Count, CellRect, ReachesCorner;
  }

  lemma SolidStep(s: AtlasState, op: Op)
    requires Inv(s) && Fits(op) && 2 * s.cellW <= ATLAS_PX
    ensures SolidIntact(Do(s, op)) <==>
            SolidIntact(s) && !(Spot(s, op).Some? && ReachesCorner(Spot(s, op).value.1))
  {
    hide *;
    if SolidIntact(s) { RequestKeepsSolidExactlyWhen(s, op); } else { SolidStaysBroken(s, op); }
  }

  /** A run of fresh narrow cells leaves the block white exactly when none of its slots reaches the corner. */
  lemma {:induction false} CellsKeepSolid(s: AtlasState, keys: seq<GlyphKey>, rasters: seq<Raster>)
    requires Inv(s) && SolidIntact(s) && 2 * s.cellW <= ATLAS_PX && Fresh(s, keys, rasters)
    ensures s.cellW > 0 && s.cellH > 0 && Count(s.cellW) > 0
    ensures var t := DoAll(s, Cells(keys, rasters));
            Inv(t) && (SolidIntact(t) <==> CornerFree(s.cellW, s.cellH, |keys|))
    decreases |keys|
  {
    InvHas(s);
    CountIsSome(s.cellW);
    hide *;
    SameLength(s, keys, rasters);
    if |keys| == 0 {
      NoCellsDone(s, keys, rasters);
      OneMoreCorner(s.cellW, s.cellH, 0);
    } else {
      var n := |keys| - 1;
      var t, op := CellsStep(s, keys, rasters);
      CellsKeepSolid(s, keys[..n], rasters[..n]);
      DoKeepsInv(t, op);
      SolidStep(t, op);
      OneMoreCorner(s.cellW, s.cellH, n);
    }
  }

  /** How many sizes fit before the white block begins. */
  function Room(size: nat): nat
    requires size > 0
  {
    (ATLAS_PX - SOLID_PX) / size
  }

  lemma RoomIs(j: nat, size: nat)
    requires size > 0
    ensures Times(j, size) + size > ATLAS_PX - SOLID_PX <==> j >= Room(size)
  {
    var n := Room(size);
    assert ATLAS_PX - SOLID_PX == Times(n, size) + (ATLAS_PX - SOLID_PX) % size;
    if j < n { TimesOrder(j, n, size); } else if n < j { TimesOrder(n, j, size); }
  }

  /** Some slot reaches past the room in this direction exactly when less than four texels are left over. */
  lemma LastReachesExactlyWhen(size: nat)
    requires 0 < size <= ATLAS_PX
    ensures Room(size) < Count(size) <==> ATLAS_PX % size < SOLID_PX
  {
    CountIsSome(size);
    var q := Count(size);
    RoomIs(q - 1, size);
    TimesStep(q - 1, size);
    assert ATLAS_PX == Times(q, size) + ATLAS_PX % size;
  }

  /** The number of the first slot that reaches the corner. */
  function FirstCorner(w: nat, h: nat): nat
    requires 0 < w && 0 < h
  {
    Times(Room(h), Count(w)) + Room(w)
  }

  lemma CornerSlots(w: nat, h: nat, n: nat)
    requires 0 < w <= ATLAS_PX && 0 < h
    ensures Count(w) > 0
    ensures CornerFree(w, h, n) <==>
            !(Room(w) < Count(w) && Room(h) < Count(h)) || n <= FirstCorner(w, h)
  {
    CountIsSome(w);
    var cols, rows, c, r := Count(w), Count(h), Room(w), Room(h);
    hide Times, Count, RowOf, ColOf, Room;
    forall i | 0 <= i
      ensures ReachesCorner(CellRect(w, h, i)) <==> ColOf(i, cols) >= c && RowOf(i, cols) >= r
      ensures i < Times(rows, cols) <==> RowOf(i, cols) < rows
      ensures RowOf(i, cols) >= r && ColOf(i, cols) >= c ==> i >= FirstCorner(w, h)
    {
      RoomIs(ColOf(i, cols), w);
      RoomIs(RowOf(i, cols), h);
      InRowsExactlyWhen(i, cols, rows);
      Parts(i, cols);
      if RowOf(i, cols) > r { TimesOrder(r, RowOf(i, cols), cols); }
    }
    if c < cols && r < rows {
      var first := FirstCorner(w, h);
      PartsAre(first, cols, r, c);
      InRowsExactlyWhen(first, cols, rows);
      assert ReachesCorner(CellRect(w, h, first)) && first < Times(rows, cols);
    }
  }

  /** HOW MANY CHARACTERS THE WHITE BLOCK SURVIVES. Any number of fresh narrow characters leaves it intact, unless in
    both directions a slot ends within its four texels; then exactly the characters before the first such slot do. */
  lemma CellsPaintSolidExactlyWhen(s: AtlasState, keys: seq<GlyphKey>, rasters: seq<Raster>)
    requires Inv(s) && SolidIntact(s) && 2 * s.cellW <= ATLAS_PX && s.cellH <= ATLAS_PX && Fresh(s, keys, rasters)
    ensures s.cellW > 0 && s.cellH > 0
    ensures SolidIntact(DoAll(s, Cells(keys, rasters))) <==>
            !(ATLAS_PX % s.cellW < SOLID_PX && ATLAS_PX % s.cellH < SOLID_PX) || |keys| <= FirstCorner(s.cellW, s.cellH)
  {
    InvHas(s);
    CellsKeepSolid(s, keys, rasters);
    CornerSlots(s.cellW, s.cellH, |keys|);
    LastReachesExactlyWhen(s.cellW);
    LastReachesExactlyWhen(s.cellH);
    hide Inv, SolidIntact, DoAll, Cells, Times, Count, Room, ReachesCorner, CellRect, Fresh;
  }

  // ---- uniform cells over cached panels ----

  ghost predicate MeetsPanel(s: AtlasState, r: Rect) {
    exists o :: IsPanel(o) && Cached(s, o).Some? && !Apart(r, Cached(s, o).value)
  }

  lemma SamePanels(s: AtlasState, t: AtlasState, r: Rect)
    requires t.uiGlyphs == s.uiGlyphs && t.icons == s.icons
    ensures MeetsPanel(t, r) <==> MeetsPanel(s, r)
  {
    hide Apart;
    assert forall o :: IsPanel(o) ==> Cached(t, o) == Cached(s, o);
    hide Cached;
  }

  /** A cell lands free unless it meets a panel. */
  lemma CellLandsFree(s: AtlasState, op: Op)
    requires Inv(s) && 2 * s.cellW <= ATLAS_PX && op.Cell? && Spot(s, op).Some?
    ensures LandsFree(s, op) <==> !MeetsPanel(s, Spot(s, op).value.1)
  {
    RequestPaintsItsSpot(s, op);
    CellFits(op);
    assert Spot(s, op).value.0.CellOf?;
    assert Cached(s, Solid) == None;
    forall o | Cached(s, o).Some? && !Apart(Spot(s, op).value.1, Cached(s, o).value) ensures IsPanel(o) {
      OnlyTheOtherSection(s, op, o);
    }
    hide Inv, Spot, Do, Apart, Cached;
  }

  /** None of the first `n` slots of one size meets a cached panel. */
  ghost predicate PanelFree(s: AtlasState, n: nat)
    requires 0 < s.cellW && 0 < s.cellH && Count(s.cellW) > 0
  {
    forall i :: 0 <= i < n && i < Times(Count(s.cellH), Count(s.cellW)) ==>
      !MeetsPanel(s, CellRect(s.cellW, s.cellH, i))
  }

  lemma OneMorePanel(s: AtlasState, n: nat)
    requires 0 < s.cellW && 0 < s.cellH && Count(s.cellW) > 0
    ensures PanelFree(s, 0)
    ensures var cap := Times(Count(s.cellH), Count(s.cellW));
            PanelFree(s, n + 1) <==> PanelFree(s, n) && !(n < cap && MeetsPanel(s, CellRect(s.cellW, s.cellH, n)))
  {
    hide Times, Count, CellRect, MeetsPanel;
  }

  lemma ShownStep(s: AtlasState, op: Op)
    requires Inv(s) && 2 * s.cellW <= ATLAS_PX && op.Cell?
    ensures AllShown(Do(s, op)) <==> AllShown(s) && !(Spot(s, op).Some? && MeetsPanel(s, Spot(s, op).value.1))
  {
    hide *;
    CellFits(op);
    if Spot(s, op).Some? { CellLandsFree(s, op); } else { FreeIf(s, op); }
    if AllShown(s) { RequestKeepsAllShownExactlyWhen(s, op); } else { CachedStaysBroken(s, op); }
  }

  /** A run of fresh narrow cells leaves all cached slots shown exactly when none of its slots meets a cached panel. */
  lemma {:induction false} CellsKeepShown(s: AtlasState, keys: seq<GlyphKey>, rasters: seq<Raster>)
    requires Inv(s) && AllShown(s) && 2 * s.cellW <= ATLAS_PX && Fresh(s, keys, rasters)
    ensures s.cellW > 0 && s.cellH > 0 && Count(s.cellW) > 0
    ensures var t := DoAll(s, Cells(keys, rasters)); Inv(t) && (AllShown(t) <==> PanelFree(s, |keys|))
    decreases |keys|
  {
    InvHas(s);
    CountIsSome(s.cellW);
    hide *;
    SameLength(s, keys, rasters);
    if |keys| == 0 {
      NoCellsDone(s, keys, rasters);
      OneMorePanel(s, 0);
    } else {
      var n := |keys| - 1;
      var t, op := CellsStep(s, keys, rasters);
      CellsKeepShown(s, keys[..n], rasters[..n]);
      DoKeepsInv(t, op);
      SamePanels(s, t, CellRect(s.cellW, s.cellH, n));
      ShownStep(t, op);
      OneMorePanel(s, n);
    }
  }

  lemma FreeIf(s: AtlasState, op: Op)
    requires Spot(s, op).None?
    ensures LandsFree(s, op)
  {
  }

  // ---- an icon under the terminal's cells ----

  /** Side of the icons the program carries. */
  const ICON_PX: nat := 128

  function WithIcon(cellW: nat, cellH: nat, ascent: nat, icon: IconSlot, pixels: seq<byte>): AtlasState {
    Do(New(cellW, cellH, ascent), Icon(icon, Bitmap(pixels, ICON_PX, ICON_PX, 0, 0)))
  }

  lemma WithIconIs(cellW: nat, cellH: nat, ascent: nat, icon: IconSlot, pixels: seq<byte>)
    requires 2 * Max(cellW, 1) <= ATLAS_PX
    ensures var s := WithIcon(cellW, cellH, ascent, icon, pixels);
            && Inv(s) && AllShown(s) && s.cellW == Max(cellW, 1) && s.cellH == Max(cellH, 1)
            && s.cursor == Cursor(0, 0) && s.glyphs == map[]
            && forall o :: IsPanel(o) ==>
                 Cached(s, o) == if o == IconOf(icon) then Some(Rect(0, UI_SECTION_Y, ICON_PX, ICON_PX)) else None
  {
    var s, op := New(cellW, cellH, ascent), Icon(icon, Bitmap(pixels, ICON_PX, ICON_PX, 0, 0));
    NewIsSafe(cellW, cellH, ascent);
    NewShows(cellW, cellH, ascent);
    DoKeepsInv(s, op);
    assert LandsFree(s, op);
    hide Inv, AllShown;
    RequestKeepsAllShownExactlyWhen(s, op);
  }

  /** Rows of cells above the interface section. */
  function RowsAbove(h: nat): nat
    requires h > 0
  {
    UI_SECTION_Y / h
  }

  lemma RowsAboveIs(j: nat, h: nat)
    requires 0 < h <= ATLAS_PX
    ensures Times(j, h) + h > UI_SECTION_Y <==> j >= RowsAbove(h)
    ensures RowsAbove(h) < Count(h) && Times(RowsAbove(h), h) <= UI_SECTION_Y
  {
    var n := RowsAbove(h);
    assert UI_SECTION_Y == Times(n, h) + UI_SECTION_Y % h;
    if j < n { TimesOrder(j, n, h); } else if n < j { TimesOrder(n, j, h); }
    FitCount(n, h);
  }

  lemma IconSlots(w: nat, h: nat, n: nat)
    requires 0 < w <= ATLAS_PX && 0 < h <= ATLAS_PX
    ensures Count(w) > 0
    ensures var r := Rect(0, UI_SECTION_Y, ICON_PX, ICON_PX);
            (forall i :: 0 <= i < n && i < Times(Count(h), Count(w)) ==> Apart(CellRect(w, h, i), r)) <==>
            n <= Times(RowsAbove(h), Count(w))
  {
    CountIsSome(w);
    TimesStep(0, w);
    var cols, rows, above, r := Count(w), Count(h), RowsAbove(h), Rect(0, UI_SECTION_Y, ICON_PX, ICON_PX);
    RowsAboveIs(above, h);
    hide Times, Count, RowOf, ColOf, RowsAbove;
    var first := Times(above, cols);
    forall i | 0 <= i < first ensures Apart(CellRect(w, h, i), r) {
      InRowsExactlyWhen(i, cols, above);
      RowsAboveIs(RowOf(i, cols), h);
    }
    PartsAre(first, cols, above, 0);
    InRowsExactlyWhen(first, cols, rows);
    assert !Apart(CellRect(w, h, first), r);
  }

  /** HOW MANY CHARACTERS AN ICON SURVIVES. A new atlas caches one of the program's icons, then gets fresh narrow
    characters: every cached slot shows its own bitmap exactly as long as the characters fit above the interface
    section. */
  lemma IconIsShownExactlyWhen(cellW: nat, cellH: nat, ascent: nat, icon: IconSlot, pixels: seq<byte>,
                               keys: seq<GlyphKey>, rasters: seq<Raster>)
    requires 2 * Max(cellW, 1) <= ATLAS_PX && Max(cellH, 1) <= ATLAS_PX
             && Fresh(New(cellW, cellH, ascent), keys, rasters)
    ensures Count(Max(cellW, 1)) > 0
    ensures AllShown(DoAll(WithIcon(cellW, cellH, ascent, icon, pixels), Cells(keys, rasters))) <==>
            |keys| <= Times(RowsAbove(Max(cellH, 1)), Count(Max(cellW, 1)))
  {
    var s, r := WithIcon(cellW, cellH, ascent, icon, pixels), Rect(0, UI_SECTION_Y, ICON_PX, ICON_PX);
    WithIconIs(cellW, cellH, ascent, icon, pixels);
    FreshToo(New(cellW, cellH, ascent), s, keys, rasters);
    hide Inv, AllShown, WithIcon, DoAll, Cells, Times, Count, RowsAbove, CellRect, Fresh, Apart, MeetsPanel,
         IsPanel, Cached;
    CellsKeepShown(s, keys, rasters);
    IconSlots(s.cellW, s.cellH, |keys|);
    PanelIs(icon);
    forall q: Rect ensures MeetsPanel(s, q) <==> !Apart(q, r) {
      MeetsOnly(s, q, IconOf(icon), r);
    }
  }

  lemma PanelIs(icon: IconSlot)
    ensures IsPanel(IconOf(icon))
  {
  }

  lemma MeetsOnly(s: AtlasState, q: Rect, owner: Owner, r: Rect)
    requires IsPanel(owner) && forall o :: IsPanel(o) ==> Cached(s, o) == if o == owner then Some(r) else None
    ensures MeetsPanel(s, q) <==> !Apart(q, r)
  {
    hide Cached, Apart;
    assert Cached(s, owner) == Some(r);
  }

  lemma FreshToo(s: AtlasState, t: AtlasState, keys: seq<GlyphKey>, rasters: seq<Raster>)
    requires Fresh(s, keys, rasters) && s.glyphs == t.glyphs && t.cursor == s.cursor
    ensures Fresh(t, keys, rasters)
  {
  }

  // ---- two inputs ----

  /** The first characters behind the controls. */
  function Alphabet(n: nat): seq<GlyphKey> {
    seq(n, i requires 0 <= i < n => GlyphKey(0x20 + i, false, false))
  }

  predicate NarrowPictures(rasters: seq<Raster>) {
    forall i :: 0 <= i < |rasters| ==> !rasters[i].isColor
  }

  lemma AlphabetIsFresh(cellW: nat, cellH: nat, ascent: nat, rasters: seq<Raster>)
    requires |rasters| <= 0xD000 && NarrowPictures(rasters)
    ensures Fresh(New(cellW, cellH, ascent), Alphabet(|rasters|), rasters)
  {
  }

  /** 8191 characters of 16 by 32 texels leave the white block, one more paints it over. */
  lemma SolidIsPaintedOver(ascent: nat, rasters: seq<Raster>)
    requires |rasters| <= 0xD000 && NarrowPictures(rasters)
    ensures SolidIntact(DoAll(New(16, 32, ascent), Cells(Alphabet(|rasters|), rasters))) <==> |rasters| <= 8191
  {
    hide *;
    SixteenByThirtyTwo(ascent);
    AlphabetSize(|rasters|);
    NewIsSafe(16, 32, ascent);
    NewShows(16, 32, ascent);
    AlphabetIsFresh(16, 32, ascent, rasters);
    CellsPaintSolidExactlyWhen(New(16, 32, ascent), Alphabet(|rasters|), rasters);
  }

  lemma SixteenByThirtyTwo(ascent: nat)
    ensures New(16, 32, ascent).cellW == 16 && New(16, 32, ascent).cellH == 32 && 2 * 32 <= ATLAS_PX
    ensures ATLAS_PX % 16 < SOLID_PX && ATLAS_PX % 32 < SOLID_PX && FirstCorner(16, 32) == 8191
  {
  }

  /** 5376 characters of 16 by 24 texels leave a cached icon, one more paints over it while it stays cached. */
  lemma IconIsPaintedOver(ascent: nat, icon: IconSlot, pixels: seq<byte>, rasters: seq<Raster>)
    requires |rasters| <= 0xD000 && NarrowPictures(rasters)
    ensures AllShown(DoAll(WithIcon(16, 24, ascent, icon, pixels), Cells(Alphabet(|rasters|), rasters))) <==>
            |rasters| <= 5376
    ensures Cached(DoAll(WithIcon(16, 24, ascent, icon, pixels), Cells(Alphabet(|rasters|), rasters)), IconOf(icon)) ==
            Some(Rect(0, UI_SECTION_Y, ICON_PX, ICON_PX))
  {
    hide *;
    SixteenByTwentyFour();
    AlphabetSize(|rasters|);
    AlphabetIsFresh(16, 24, ascent, rasters);
    IconStaysCached(16, 24, ascent, icon, pixels, Alphabet(|rasters|), rasters);
    IconIsShownExactlyWhen(16, 24, ascent, icon, pixels, Alphabet(|rasters|), rasters);
  }

  lemma AlphabetSize(n: nat)
    ensures |Alphabet(n)| == n
  {
  }

  lemma SixteenByTwentyFour()
    ensures Max(16, 1) == 16 && Max(24, 1) == 24 && 2 * 24 <= ATLAS_PX
    ensures Times(RowsAbove(24), Count(16)) == 5376
  {
  }

  lemma IconStaysCached(cellW: nat, cellH: nat, ascent: nat, icon: IconSlot, pixels: seq<byte>,
                        keys: seq<GlyphKey>, rasters: seq<Raster>)
    requires 2 * Max(cellW, 1) <= ATLAS_PX && Fresh(New(cellW, cellH, ascent), keys, rasters)
    ensures |keys| == |rasters|
    ensures Cached(DoAll(WithIcon(cellW, cellH, ascent, icon, pixels), Cells(keys, rasters)), IconOf(icon)) ==
            Some(Rect(0, UI_SECTION_Y, ICON_PX, ICON_PX))
  {
    var s := WithIcon(cellW, cellH, ascent, icon, pixels);
    WithIconIs(cellW, cellH, ascent, icon, pixels);
    FreshToo(New(cellW, cellH, ascent), s, keys, rasters);
    PanelIs(icon);
    hide Inv, AllShown, DoAll, Cells, WithIcon, IsPanel;
    CellsRun(s, keys, rasters);
    assert Cached(s, IconOf(icon)) == Some(Rect(0, UI_SECTION_Y, ICON_PX, ICON_PX));
  }
}
