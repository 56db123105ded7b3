/** The glyph atlas: two shelf packers sharing one texture, and the caches that remember where things went. */
module Atlas {
  import opened Bytes

  /** Side of the square texture. */
  const ATLAS_PX: nat := 2048
  /** First row of the section for interface glyphs and icons. */
  const UI_SECTION_Y: nat := 1024
  /** Side of the white block in the bottom right corner. */
  const SOLID_PX: nat := 4

  datatype Rect = Rect(x: nat, y: nat, w: nat, h: nat)

  predicate Apart(a: Rect, b: Rect) {
    a.x + a.w <= b.x || b.x + b.w <= a.x || a.y + a.h <= b.y || b.y + b.h <= a.y
  }

  predicate OnTexture(r: Rect) {
    r.x + r.w <= ATLAS_PX && r.y + r.h <= ATLAS_PX
  }

  predicate Covers(r: Rect, x: nat, y: nat) {
    r.x <= x < r.x + r.w && r.y <= y < r.y + r.h
  }

  // ---- the two packers ----

  datatype Cursor = Cursor(x: nat, y: nat)

  function Wrapped(c: Cursor, w: nat, h: nat): Cursor {
    if c.x + w > ATLAS_PX then Cursor(0, c.y + h) else c
  }

  /** Terminal cells: rows of one height; a wrap is kept even when the slot then does not fit. */
  function PlaceCell(c: Cursor, w: nat, h: nat): (Cursor, Option<Rect>) {
    var d := Wrapped(c, w, h);
    if d.y + h > ATLAS_PX then (d, None) else (Cursor(d.x + w, d.y), Some(Rect(d.x, d.y, w, h)))
  }

  datatype PanelCursor = PanelCursor(x: nat, y: nat, rowHeight: nat)

  const PANEL_START := PanelCursor(0, UI_SECTION_Y, 0)

  /** Interface bitmaps: each row as high as its tallest bitmap. */
  function PlacePanel(c: PanelCursor, w: nat, h: nat): (PanelCursor, Option<Rect>) {
    if w == 0 || h == 0 then (c, None)
    else
      var d := if c.x + w > ATLAS_PX then PanelCursor(0, c.y + Max(c.rowHeight, 1), 0) else c;
      if d.y + h > ATLAS_PX then (d, None)
      else (PanelCursor(d.x + w, d.y, Max(d.rowHeight, h)), Some(Rect(d.x, d.y, w, h)))
  }

  /** A slot the packer hands out lies on the texture exactly when it is no wider than the texture. */
  lemma PlacedOnTextureExactlyWhen(c: Cursor, p: PanelCursor, w: nat, h: nat)
    ensures PlaceCell(c, w, h).1.Some? ==> (OnTexture(PlaceCell(c, w, h).1.value) <==> w <= ATLAS_PX)
    ensures PlacePanel(p, w, h).1.Some? ==> (OnTexture(PlacePanel(p, w, h).1.value) <==> w <= ATLAS_PX)
  {
  }

  // ---- composing a cell's pixels ----

  datatype Raster = Raster(width: nat, height: nat, top: int, pixels: seq<byte>, isColor: bool)

  function Zeros(n: nat): (z: seq<byte>)
    ensures |z| == n && forall i :: 0 <= i < n ==> z[i] == 0
  {
    seq(n, _ => 0)
  }

  function OffsetX(slotW: nat, r: Raster): (x: nat)
    ensures 2 * x <= slotW
  {
    Max((slotW - r.width) / 2, 0)
  }

  function OffsetY(ascent: nat, r: Raster): nat {
    Max(ascent - r.top, 0)
  }

  function CopyW(slotW: nat, r: Raster): (n: nat)
    ensures n <= r.width && OffsetX(slotW, r) + n <= slotW
  {
    Min(r.width, slotW - OffsetX(slotW, r))
  }

  function CopyH(slotH: nat, ascent: nat, r: Raster): (n: nat)
    ensures n <= r.height && (n > 0 ==> OffsetY(ascent, r) + n <= slotH)
  {
    Min(r.height, Max(slotH - OffsetY(ascent, r), 0))
  }

  /** Where row `y` begins. */
  function At(y: nat, stride: nat): (i: nat) {
    assert y * stride >= 0;
    y * stride
  }

  lemma RowsInOrder(y: nat, z: nat, stride: nat)
    requires y < z
    ensures At(y, stride) + stride <= At(z, stride)
  {
    assert z * stride == y * stride + stride + (z - y - 1) * stride;
    assert (z - y - 1) * stride >= 0;
  }

  /** Row `y` of the slot: the raster's row, centred, on the baseline, clipped to the slot, on transparent ground. */
  function SlotRow(slotW: nat, slotH: nat, ascent: nat, r: Raster, y: nat): (row: seq<byte>)
    ensures |row| == slotW * 4
  {
    var x, n, row := OffsetX(slotW, r) * 4, CopyW(slotW, r) * 4, y - OffsetY(ascent, r);
    if 0 <= row < CopyH(slotH, ascent, r) && At(row, r.width * 4) + n <= |r.pixels| then
      var src := At(row, r.width * 4);
      Zeros(x) + r.pixels[src..src + n] + Zeros(slotW * 4 - x - n)
    else Zeros(slotW * 4)
  }

  ghost predicate RowIs(buf: seq<byte>, stride: nat, y: nat, row: seq<byte>) {
    At(y, stride) + stride <= |buf| && buf[At(y, stride)..At(y, stride) + stride] == row
  }

  /** Everything outside row `d` is as it was. */
  ghost predicate OnlyRow(was: seq<byte>, now: seq<byte>, stride: nat, d: nat) {
    |now| == |was| &&
    forall k :: 0 <= k < |was| && !(At(d, stride) <= k < At(d, stride) + stride) ==> now[k] == was[k]
  }

  lemma OtherRows(was: seq<byte>, now: seq<byte>, stride: nat, d: nat, y: nat, row: seq<byte>)
    requires OnlyRow(was, now, stride, d) && y != d && RowIs(was, stride, y, row)
    ensures RowIs(now, stride, y, row)
  {
    if y < d { RowsInOrder(y, d, stride); } else { RowsInOrder(d, y, stride); }
    hide At;
  }

  method CopyBytes(buf: array<byte>, start: nat, src: seq<byte>)
    requires start + |src| <= buf.Length
    modifies buf
    ensures buf[..] == old(buf[..start]) + src + old(buf[start + |src|..])
  {
    var i := 0;
    while i < |src|
      invariant 0 <= i <= |src|
      invariant forall k :: 0 <= k < buf.Length ==>
                  buf[k] == if start <= k < start + i then src[k - start] else old(buf[k])
    {
      buf[start + i] := src[i];
      i := i + 1;
    }
  }

  lemma RowWritten(was: seq<byte>, now: seq<byte>, stride: nat, d: nat, x: nat, src: seq<byte>)
    requires RowIs(was, stride, d, Zeros(stride)) && x + |src| <= stride
    requires now == was[..At(d, stride) + x] + src + was[At(d, stride) + x + |src|..]
    ensures OnlyRow(was, now, stride, d) && RowIs(now, stride, d, Zeros(x) + src + Zeros(stride - x - |src|))
  {
    hide At;
    var low := At(d, stride);
    var row, want := was[low..low + stride], Zeros(x) + src + Zeros(stride - x - |src|);
    forall k | 0 <= k < stride ensures now[low..low + stride][k] == want[k] {
      assert now[low + k] == if x <= k < x + |src| then src[k - x] else was[low + k];
      assert was[low + k] == row[k];
    }
  }

  function RowTo(slotW: nat, slotH: nat, ascent: nat, r: Raster, n: nat, y: nat): seq<byte> {
    if y < n then SlotRow(slotW, slotH, ascent, r, y) else Zeros(slotW * 4)
  }

  /** The first `n` rows of the slot are finished, the others still transparent. */
  ghost predicate DoneTo(s: seq<byte>, slotW: nat, slotH: nat, ascent: nat, r: Raster, n: nat) {
    |s| == At(slotH, slotW * 4) &&
    forall y :: 0 <= y < slotH ==> RowIs(s, slotW * 4, y, RowTo(slotW, slotH, ascent, r, n, y))
  }

  lemma OneMoreRow(was: seq<byte>, now: seq<byte>, slotW: nat, slotH: nat, ascent: nat, r: Raster, d: nat)
    requires DoneTo(was, slotW, slotH, ascent, r, d) && d < slotH
    requires RowIs(now, slotW * 4, d, SlotRow(slotW, slotH, ascent, r, d)) && OnlyRow(was, now, slotW * 4, d)
    ensures DoneTo(now, slotW, slotH, ascent, r, d + 1)
  {
    hide SlotRow, RowIs, Zeros, At;
    var m := d + 1;
    forall y | 0 <= y < slotH ensures RowIs(now, slotW * 4, y, RowTo(slotW, slotH, ascent, r, m, y)) {
      if y != d { OtherRows(was, now, slotW * 4, d, y, RowTo(slotW, slotH, ascent, r, d, y)); }
    }
  }

  lemma BlankRows(s: seq<byte>, slotW: nat, slotH: nat, ascent: nat, r: Raster)
    requires s == Zeros(At(slotH, slotW * 4))
    ensures DoneTo(s, slotW, slotH, ascent, r, OffsetY(ascent, r))
  {
    forall y | 0 <= y < slotH ensures RowIs(s, slotW * 4, y, Zeros(slotW * 4)) {
      RowsInOrder(y, slotH, slotW * 4);
    }
    hide RowIs, At;
  }

  lemma RestIsBlank(s: seq<byte>, slotW: nat, slotH: nat, ascent: nat, r: Raster)
    requires DoneTo(s, slotW, slotH, ascent, r, OffsetY(ascent, r) + CopyH(slotH, ascent, r))
    ensures DoneTo(s, slotW, slotH, ascent, r, slotH)
  {
    hide RowIs, At;
    var done := OffsetY(ascent, r) + CopyH(slotH, ascent, r);
    forall y | 0 <= y < slotH
      ensures RowTo(slotW, slotH, ascent, r, slotH, y) == RowTo(slotW, slotH, ascent, r, done, y)
    {
    }
  }

  lemma SlotRowAt(slotW: nat, slotH: nat, ascent: nat, r: Raster, row: nat)
    requires row < CopyH(slotH, ascent, r)
    ensures var x, n, src := OffsetX(slotW, r) * 4, CopyW(slotW, r) * 4, At(row, r.width * 4);
            && x + n <= slotW * 4
            && SlotRow(slotW, slotH, ascent, r, OffsetY(ascent, r) + row) ==
               if src + n <= |r.pixels| then Zeros(x) + r.pixels[src..src + n] + Zeros(slotW * 4 - x - n)
               else Zeros(slotW * 4)
  {
    hide At, CopyH, CopyW, OffsetX, OffsetY;
  }

  /** One row of the blit, with the program's own range check. */
  method CopyRow(buf: array<byte>, slotW: nat, slotH: nat, ascent: nat, r: Raster, row: nat)
    requires row < CopyH(slotH, ascent, r)
    requires DoneTo(buf[..], slotW, slotH, ascent, r, OffsetY(ascent, r) + row)
    modifies buf
    ensures DoneTo(buf[..], slotW, slotH, ascent, r, OffsetY(ascent, r) + row + 1)
  {
    hide SlotRow, Zeros, At;
    var stride, x, n, d := slotW * 4, OffsetX(slotW, r) * 4, CopyW(slotW, r) * 4, OffsetY(ascent, r) + row;
    ghost var was := buf[..];
    assert RowTo(slotW, slotH, ascent, r, d, d) == Zeros(stride);
    assert RowIs(was, stride, d, Zeros(stride)) && |was| == At(slotH, stride);
    hide DoneTo, RowIs, OffsetX, OffsetY, CopyH, CopyW, OnlyRow;
    RowsInOrder(d, slotH, stride);
    SlotRowAt(slotW, slotH, ascent, r, row);
    var srcStart := At(row, r.width * 4);
    var srcEnd := srcStart + n;
    var dstStart := At(d, stride) + x;
    var dstEnd := dstStart + n;
    assert dstEnd <= buf.Length;
    if dstEnd <= buf.Length && srcEnd <= |r.pixels| {
      CopyBytes(buf, dstStart, r.pixels[srcStart..srcEnd]);
      RowWritten(was, buf[..], stride, d, x, r.pixels[srcStart..srcEnd]);
    } else {
      NothingWritten(was, stride, d);
    }
    OneMoreRow(was, buf[..], slotW, slotH, ascent, r, d);
  }

  lemma NothingWritten(s: seq<byte>, stride: nat, d: nat)
    ensures OnlyRow(s, s, stride, d)
  {
  }

  /** All rows of the slot, one after the other. */
  function SlotPixels(slotW: nat, slotH: nat, ascent: nat, r: Raster, n: nat): seq<byte> {
    if n == 0 then [] else SlotPixels(slotW, slotH, ascent, r, n - 1) + SlotRow(slotW, slotH, ascent, r, n - 1)
  }

  lemma {:induction false} DoneIsComposed(s: seq<byte>, slotW: nat, slotH: nat, ascent: nat, r: Raster, n: nat)
    requires DoneTo(s, slotW, slotH, ascent, r, slotH) && n <= slotH
    ensures At(n, slotW * 4) <= |s| && s[..At(n, slotW * 4)] == SlotPixels(slotW, slotH, ascent, r, n)
  {
    var stride := slotW * 4;
    if n == 0 {
      assert At(0, stride) == 0;
    } else {
      DoneIsComposed(s, slotW, slotH, ascent, r, n - 1);
      assert RowTo(slotW, slotH, ascent, r, slotH, n - 1) == SlotRow(slotW, slotH, ascent, r, n - 1);
      assert RowIs(s, stride, n - 1, SlotRow(slotW, slotH, ascent, r, n - 1));
      assert At(n, stride) == At(n - 1, stride) + stride;
      hide SlotRow, At, DoneTo, RowTo;
      var low := At(n - 1, stride);
      assert s[..low + stride] == s[..low] + s[low..low + stride];
    }
  }

  /** The blit: no write leaves the slot's buffer, which ends up holding exactly the slot's rows. */
  method Compose(slotW: nat, slotH: nat, ascent: nat, r: Raster) returns (pixels: seq<byte>)
    ensures pixels == SlotPixels(slotW, slotH, ascent, r, slotH)
  {
    hide DoneTo, SlotPixels;
    var buf := new byte[At(slotH, slotW * 4)](_ => 0);
    assert buf[..] == Zeros(At(slotH, slotW * 4));
    BlankRows(buf[..], slotW, slotH, ascent, r);
    var copyH := CopyH(slotH, ascent, r);
    var row := 0;
    while row < copyH
      invariant 0 <= row <= copyH
      invariant DoneTo(buf[..], slotW, slotH, ascent, r, OffsetY(ascent, r) + row)
    {
      CopyRow(buf, slotW, slotH, ascent, r, row);
      row := row + 1;
    }
    pixels := buf[..];
    RestIsBlank(pixels, slotW, slotH, ascent, r);
    DoneIsComposed(pixels, slotW, slotH, ascent, r, slotH);
    DoneSize(pixels, slotW, slotH, ascent, r, slotH);
    assert pixels[..|pixels|] == pixels;
  }

  lemma DoneSize(s: seq<byte>, slotW: nat, slotH: nat, ascent: nat, r: Raster, n: nat)
    requires DoneTo(s, slotW, slotH, ascent, r, n)
    ensures |s| == At(slotH, slotW * 4)
  {
  }

  // ---- the atlas as a value ----

  datatype GlyphKey = GlyphKey(codepoint: nat, bold: bool, italic: bool)
  datatype UIGlyphKey = UIGlyphKey(codepoint: nat, fontPxHundredths: nat)
  datatype IconSlot = Generic | Claude | Codex

  datatype GlyphInfo = GlyphInfo(rect: Rect, wide: bool, isColor: bool)
  datatype UISlot = UISlot(rect: Rect, left: int, top: int)

  datatype Bitmap = Bitmap(pixels: seq<byte>, width: nat, height: nat, left: int, top: int)

  /** On whose behalf a region of the texture was replaced. */
  datatype Owner = Solid | CellOf(key: GlyphKey) | GlyphOf(uiKey: UIGlyphKey) | IconOf(icon: IconSlot)
  datatype Upload = Upload(owner: Owner, rect: Rect, pixels: seq<byte>)

  /** `uploads` is what the texture was given, in order; `since` counts those before the last reset. */
  datatype AtlasState = AtlasState(
    cellW: nat, cellH: nat, ascent: nat,
    cursor: Cursor, glyphs: map<GlyphKey, GlyphInfo>,
    panelCursor: PanelCursor, uiGlyphs: map<UIGlyphKey, UISlot>, icons: map<IconSlot, UISlot>,
    uploads: seq<Upload>, since: nat)

  const SOLID := Rect(ATLAS_PX - SOLID_PX, ATLAS_PX - SOLID_PX, SOLID_PX, SOLID_PX)

  function White(n: nat): seq<byte> {
    seq(n, _ => 0xFF)
  }

  function New(cellW: nat, cellH: nat, ascent: nat): AtlasState {
    AtlasState(Max(cellW, 1), Max(cellH, 1), ascent, Cursor(0, 0), map[], PANEL_START, map[], map[],
               [Upload(Solid, SOLID, White(SOLID_PX * SOLID_PX * 4))], 1)
  }

  predicate IsChar(codepoint: nat) {
    codepoint < 0xD800 || 0xE000 <= codepoint <= 0x10FFFF
  }

  function SlotWidth(s: AtlasState, wide: bool): nat {
    if wide then s.cellW * 2 else s.cellW
  }

  function EnsureCell(s: AtlasState, key: GlyphKey, wide: bool, raster: Option<Raster>): AtlasState {
    if key in s.glyphs || !IsChar(key.codepoint) || raster.None? then s
    else
      var r := raster.value;
      var w := SlotWidth(s, wide || r.isColor);
      var placed := PlaceCell(s.cursor, w, s.cellH);
      if placed.1.None? then s.(cursor := placed.0)
      else
        s.(cursor := placed.0,
           glyphs := s.glyphs[key := GlyphInfo(placed.1.value, wide || r.isColor, r.isColor)],
           uploads := s.uploads + [Upload(CellOf(key), placed.1.value, SlotPixels(w, s.cellH, s.ascent, r, s.cellH))])
  }

  function PackPanel(s: AtlasState, owner: Owner, b: Bitmap): (AtlasState, Option<UISlot>) {
    var placed := PlacePanel(s.panelCursor, b.width, b.height);
    if placed.1.None? then (s.(panelCursor := placed.0), None)
    else
      (s.(panelCursor := placed.0, uploads := s.uploads + [Upload(owner, placed.1.value, b.pixels)]),
       Some(UISlot(placed.1.value, b.left, b.top)))
  }

  function EnsureUI(s: AtlasState, text: seq<nat>, hundredths: nat, raster: Option<Bitmap>)
    : (AtlasState, Option<UISlot>)
  {
    if |text| == 0 then (s, None)
    else
      var key := UIGlyphKey(text[0], hundredths);
      if key in s.uiGlyphs then (s, Some(s.uiGlyphs[key]))
      else if raster.None? then (s, None)
      else
        var packed := PackPanel(s, GlyphOf(key), raster.value);
        if packed.1.None? then packed
        else (packed.0.(uiGlyphs := packed.0.uiGlyphs[key := packed.1.value]), packed.1)
  }

  function EnsureIcon(s: AtlasState, icon: IconSlot, decoded: Bitmap): (AtlasState, Option<UISlot>) {
    if icon in s.icons then (s, Some(s.icons[icon]))
    else
      var packed := PackPanel(s, IconOf(icon), decoded.(left := 0, top := 0));
      if packed.1.None? then packed
      else (packed.0.(icons := packed.0.icons[icon := packed.1.value]), packed.1)
  }

  function ResetPanels(s: AtlasState): AtlasState {
    s.(panelCursor := PANEL_START, uiGlyphs := map[], icons := map[], since := |s.uploads|)
  }

  // ---- the invariant ----

  predicate CellPlaced(r: Rect, c: Cursor, h: nat) {
    r.h == h && OnTexture(r) && (r.y + h <= c.y || (r.y == c.y && r.x + r.w <= c.x))
  }

  predicate PanelPlaced(r: Rect, c: PanelCursor) {
    r.y >= UI_SECTION_Y && OnTexture(r)
    && (r.y + r.h <= c.y || (r.y == c.y && r.x + r.w <= c.x && r.h <= c.rowHeight))
  }

  predicate IsPanel(o: Owner) {
    o.GlyphOf? || o.IconOf?
  }

  /** The cached slot of an owner. */
  function Cached(s: AtlasState, o: Owner): Option<Rect> {
    match o
    case Solid => None
    case CellOf(key) => if key in s.glyphs then Some(s.glyphs[key].rect) else None
    case GlyphOf(key) => if key in s.uiGlyphs then Some(s.uiGlyphs[key].rect) else None
    case IconOf(icon) => if icon in s.icons then Some(s.icons[icon].rect) else None
  }

  /** An upload that still counts: every cell, and every panel since the last reset. */
  predicate Live(s: AtlasState, i: nat)
    requires i < |s.uploads|
  {
    s.uploads[i].owner.CellOf? || (i >= s.since && IsPanel(s.uploads[i].owner))
  }

  /** The same packer placed both. */
  predicate SameSection(a: Owner, b: Owner) {
    (a.CellOf? && b.CellOf?) || (IsPanel(a) && IsPanel(b))
  }

  predicate PlacedOk(s: AtlasState, i: nat)
    requires i < |s.uploads|
  {
    var u := s.uploads[i];
    && u.rect.w > 0 && u.rect.h > 0
    && (u.owner.Solid? ==> i == 0 && u.rect == SOLID)
    && (u.owner.CellOf? ==> CellPlaced(u.rect, s.cursor, s.cellH))
    && (IsPanel(u.owner) ==> u.rect.y >= UI_SECTION_Y)
    && (IsPanel(u.owner) && i >= s.since ==> PanelPlaced(u.rect, s.panelCursor))
    && (Live(s, i) ==> Cached(s, u.owner) == Some(u.rect))
  }

  predicate PairOk(s: AtlasState, i: nat, j: nat)
    requires i < |s.uploads| && j < |s.uploads|
  {
    Live(s, i) && Live(s, j) && SameSection(s.uploads[i].owner, s.uploads[j].owner) ==>
      Apart(s.uploads[i].rect, s.uploads[j].rect)
  }

  ghost predicate Backed(s: AtlasState, o: Owner) {
    exists i :: 0 <= i < |s.uploads| && Live(s, i) && s.uploads[i].owner == o
  }

  /** PACKING IS SAFE. Slots lie on the texture, behind their section's cursor; slots of one section handed out since
    its last reset never overlap; and the caches name exactly those slots. */
  ghost predicate Inv(s: AtlasState) {
    && s.panelCursor.y >= UI_SECTION_Y && 1 <= s.since <= |s.uploads| && s.cellW > 0 && s.cellH > 0
    && s.uploads[0].owner.Solid?
    && (forall i :: 0 <= i < |s.uploads| ==> PlacedOk(s, i))
    && (forall i, j :: 0 <= i < j < |s.uploads| ==> PairOk(s, i, j))
    && (forall o :: Cached(s, o).Some? ==> Backed(s, o))
  }

  lemma NewIsSafe(cellW: nat, cellH: nat, ascent: nat)
    ensures Inv(New(cellW, cellH, ascent))
  {
  }

  /** Both cursors only move past what they handed out. */
  ghost predicate Ahead(s: AtlasState, t: AtlasState) {
    && t.panelCursor.y >= UI_SECTION_Y
    && (forall r :: CellPlaced(r, s.cursor, s.cellH) ==> CellPlaced(r, t.cursor, t.cellH))
    && (forall r :: PanelPlaced(r, s.panelCursor) ==> PanelPlaced(r, t.panelCursor))
  }

  lemma MovedIsSafe(s: AtlasState, t: AtlasState)
    requires Inv(s) && Ahead(s, t) && t == s.(cursor := t.cursor, panelCursor := t.panelCursor)
    ensures Inv(t)
  {
    hide CellPlaced, PanelPlaced, Apart;
    forall i | 0 <= i < |t.uploads| ensures PlacedOk(t, i) {
      assert PlacedOk(s, i);
    }
    forall i, j | 0 <= i < j < |t.uploads| ensures PairOk(t, i, j) {
      assert PairOk(s, i, j);
    }
    forall o | Cached(t, o).Some? ensures Backed(t, o) {
      assert Cached(s, o) == Cached(t, o) && Backed(s, o);
    }
  }

  /** The new slot is placed, and apart from every slot placed before. */
  ghost predicate FreshSlot(s: AtlasState, t: AtlasState, u: Upload) {
    && (u.owner.CellOf? ==>
          CellPlaced(u.rect, t.cursor, t.cellH) && forall r :: CellPlaced(r, s.cursor, s.cellH) ==> Apart(r, u.rect))
    && (IsPanel(u.owner) ==>
          PanelPlaced(u.rect, t.panelCursor) && forall r :: PanelPlaced(r, s.panelCursor) ==> Apart(r, u.rect))
  }

  lemma GrownIsSafe(s: AtlasState, t: AtlasState, u: Upload)
    requires Inv(s) && Ahead(s, t) && FreshSlot(s, t, u) && (u.owner.CellOf? || IsPanel(u.owner))
    requires u.rect.w > 0 && u.rect.h > 0 && t.cellW == s.cellW && t.cellH == s.cellH
    requires t.uploads == s.uploads + [u] && t.since == s.since
    requires Cached(s, u.owner).None? && Cached(t, u.owner) == Some(u.rect)
    requires forall o :: o != u.owner ==> Cached(t, o) == Cached(s, o)
    ensures Inv(t)
  {
    var n := |s.uploads|;
    assert IsPanel(u.owner) ==> u.rect.y >= UI_SECTION_Y;
    hide CellPlaced, PanelPlaced, Apart, Cached;
    forall i | 0 <= i <= n ensures PlacedOk(t, i) {
      if i < n {
        assert PlacedOk(s, i) && t.uploads[i] == s.uploads[i] && Live(t, i) == Live(s, i);
      }
    }
    forall i, j | 0 <= i < j <= n ensures PairOk(t, i, j) {
      assert t.uploads[i] == s.uploads[i] && PlacedOk(s, i);
      if j < n { assert t.uploads[j] == s.uploads[j] && PairOk(s, i, j); }
    }
    forall o | Cached(t, o).Some? ensures Backed(t, o) {
      if o == u.owner {
        assert t.uploads[n].owner == o && Live(t, n);
      } else {
        assert Backed(s, o);
        var i :| 0 <= i < n && Live(s, i) && s.uploads[i].owner == o;
        assert t.uploads[i] == s.uploads[i] && Live(t, i);
      }
    }
  }

  lemma CellPlacement(c: Cursor, w: nat, h: nat)
    requires w <= ATLAS_PX
    ensures var p := PlaceCell(c, w, h);
            && (forall r :: CellPlaced(r, c, h) ==> CellPlaced(r, p.0, h))
            && (p.1.Some? ==>
                 && p.1.value.w == w && p.1.value.h == h && CellPlaced(p.1.value, p.0, h)
                 && forall r :: CellPlaced(r, c, h) ==> Apart(r, p.1.value))
  {
  }

  lemma PanelPlacement(c: PanelCursor, w: nat, h: nat)
    requires w <= ATLAS_PX && c.y >= UI_SECTION_Y
    ensures var p := PlacePanel(c, w, h);
            && p.0.y >= UI_SECTION_Y
            && (forall r :: PanelPlaced(r, c) ==> PanelPlaced(r, p.0))
            && (p.1.Some? ==>
                 && w > 0 && h > 0 && p.1.value.w == w && p.1.value.h == h && PanelPlaced(p.1.value, p.0)
                 && forall r :: PanelPlaced(r, c) ==> Apart(r, p.1.value))
  {
  }

  // ---- whole runs ----

  datatype Op =
    | Cell(key: GlyphKey, wide: bool, raster: Option<Raster>)
    | UIGlyph(text: seq<nat>, hundredths: nat, bitmap: Option<Bitmap>)
    | Icon(icon: IconSlot, decoded: Bitmap)
    | Reset

  function Do(s: AtlasState, op: Op): AtlasState {
    match op
    case Cell(key, wide, raster) => EnsureCell(s, key, wide, raster)
    case UIGlyph(text, hundredths, bitmap) => EnsureUI(s, text, hundredths, bitmap).0
    case Icon(icon, decoded) => EnsureIcon(s, icon, decoded).0
    case Reset => ResetPanels(s)
  }

  function DoAll(s: AtlasState, ops: seq<Op>): AtlasState
    decreases |ops|
  {
    if |ops| == 0 then s else DoAll(Do(s, ops[0]), ops[1..])
  }

  /** No slot asked for is wider than the texture. */
  predicate Fits(op: Op) {
    match op
    case UIGlyph(_, _, bitmap) => bitmap.Some? ==> bitmap.value.width <= ATLAS_PX
    case Icon(_, decoded) => decoded.width <= ATLAS_PX
    case _ => true
  }

  lemma PanelIsSafe(s: AtlasState, owner: Owner, b: Bitmap, t: AtlasState)
    requires Inv(s) && b.width <= ATLAS_PX && IsPanel(owner) && Cached(s, owner).None?
    requires var p := PackPanel(s, owner, b);
             if p.1.None? then t == p.0
             else if owner.GlyphOf? then t == p.0.(uiGlyphs := p.0.uiGlyphs[owner.uiKey := p.1.value])
             else t == p.0.(icons := p.0.icons[owner.icon := p.1.value])
    ensures Inv(t)
  {
    PanelPlacement(s.panelCursor, b.width, b.height);
    hide Inv, PlacePanel, CellPlaced, PanelPlaced, Apart;
    InvHas(s);
    var placed := PlacePanel(s.panelCursor, b.width, b.height);
    if placed.1.None? {
      MovedIsSafe(s, t);
    } else {
      GrownIsSafe(s, t, Upload(owner, placed.1.value, b.pixels));
    }
  }

  lemma InvHas(s: AtlasState)
    requires Inv(s)
    ensures s.panelCursor.y >= UI_SECTION_Y && s.cellW > 0 && s.cellH > 0
  {
  }

  lemma CellIsSafe(s: AtlasState, key: GlyphKey, wide: bool, raster: Option<Raster>)
    requires Inv(s) && 2 * s.cellW <= ATLAS_PX
    ensures Inv(EnsureCell(s, key, wide, raster))
  {
    hide *;
    CellChanges(s, key, wide, raster);
    InvHas(s);
    var t := EnsureCell(s, key, wide, raster);
    if t != s {
      var w := CellWidth(s, wide, raster);
      CellPlacement(s.cursor, w, s.cellH);
      CellIsAhead(s, t, w);
      if PlaceCell(s.cursor, w, s.cellH).1.None? {
        MovedIsSafe(s, t);
      } else {
        var u := t.uploads[|s.uploads|];
        CellIsFresh(s, t, u);
        GrownIsSafe(s, t, u);
      }
    }
  }

  /** The width of the slot a picture asks for. */
  function CellWidth(s: AtlasState, wide: bool, raster: Option<Raster>): nat {
    SlotWidth(s, wide || (raster.Some? && raster.value.isColor))
  }

  lemma CellChanges(s: AtlasState, key: GlyphKey, wide: bool, raster: Option<Raster>)
    ensures var t := EnsureCell(s, key, wide, raster); var w := CellWidth(s, wide, raster);
            var placed := PlaceCell(s.cursor, w, s.cellH);
            && 0 <= w <= 2 * s.cellW && (s.cellW > 0 ==> w > 0)
            && (t != s ==>
                 if placed.1.None? then t == s.(cursor := placed.0)
                 else
                   && |t.uploads| == |s.uploads| + 1
                   && var u := t.uploads[|s.uploads|];
                   && t.uploads == s.uploads + [u] && u.owner == CellOf(key) && u.rect == placed.1.value
                   && t == s.(cursor := placed.0, glyphs := t.glyphs, uploads := t.uploads)
                   && Cached(s, u.owner) == None && Cached(t, u.owner) == Some(u.rect)
                   && forall o :: o != u.owner ==> Cached(t, o) == Cached(s, o))
  {
    hide PlaceCell, SlotPixels;
  }

  lemma CellIsAhead(s: AtlasState, t: AtlasState, w: nat)
    requires s.panelCursor.y >= UI_SECTION_Y && t.panelCursor == s.panelCursor && t.cellH == s.cellH
    requires forall r :: CellPlaced(r, s.cursor, s.cellH) ==> CellPlaced(r, t.cursor, s.cellH)
    ensures Ahead(s, t)
  {
    hide CellPlaced, PanelPlaced;
  }

  lemma CellIsFresh(s: AtlasState, t: AtlasState, u: Upload)
    requires u.owner.CellOf? && CellPlaced(u.rect, t.cursor, t.cellH)
    requires forall r :: CellPlaced(r, s.cursor, s.cellH) ==> Apart(r, u.rect)
    ensures FreshSlot(s, t, u)
  {
    hide CellPlaced, PanelPlaced, Apart;
  }

  lemma ResetIsSafe(s: AtlasState)
    requires Inv(s)
    ensures Inv(ResetPanels(s))
  {
    var t := ResetPanels(s);
    hide CellPlaced, PanelPlaced, Apart;
    forall i | 0 <= i < |t.uploads| ensures PlacedOk(t, i) {
      assert PlacedOk(s, i);
    }
    forall i, j | 0 <= i < j < |t.uploads| ensures PairOk(t, i, j) {
      assert PairOk(s, i, j);
    }
    forall o | Cached(t, o).Some? ensures Backed(t, o) {
      assert Cached(s, o) == Cached(t, o) && Backed(s, o);
      var i :| 0 <= i < |s.uploads| && Live(s, i) && s.uploads[i].owner == o;
      assert Live(t, i);
    }
  }

  lemma DoKeepsInv(s: AtlasState, op: Op)
    requires Inv(s) && Fits(op) && 2 * s.cellW <= ATLAS_PX
    ensures Inv(Do(s, op)) && Do(s, op).cellW == s.cellW && Do(s, op).cellH == s.cellH
  {
    hide Inv, PlacePanel, PlaceCell;
    match op
    case Cell(key, wide, raster) => CellIsSafe(s, key, wide, raster);
    case UIGlyph(text, hundredths, bitmap) =>
      if |text| > 0 && bitmap.Some? && Cached(s, GlyphOf(UIGlyphKey(text[0], hundredths))).None? {
        PanelIsSafe(s, GlyphOf(UIGlyphKey(text[0], hundredths)), bitmap.value, Do(s, op));
      }
    case Icon(icon, decoded) =>
      if Cached(s, IconOf(icon)).None? { PanelIsSafe(s, IconOf(icon), decoded.(left := 0, top := 0), Do(s, op)); }
    case Reset => ResetIsSafe(s);
  }

  /** Every run of glyph, icon and reset requests keeps packing safe. */
  lemma {:induction false} RunsKeepInv(s: AtlasState, ops: seq<Op>)
    requires Inv(s) && 2 * s.cellW <= ATLAS_PX && forall i :: 0 <= i < |ops| ==> Fits(ops[i])
    ensures Inv(DoAll(s, ops)) && DoAll(s, ops).cellH == s.cellH
    decreases |ops|
  {
    hide Inv, Do;
    if |ops| > 0 {
      DoKeepsInv(s, ops[0]);
      RunsKeepInv(Do(s, ops[0]), ops[1..]);
    }
  }

  /** A cached terminal glyph keeps its slot for good; a cached panel keeps its slot until the next reset. */
  lemma {:induction false} CachedSlotsStay(s: AtlasState, ops: seq<Op>, o: Owner)
    requires Cached(s, o).Some? && (o.CellOf? || Reset !in ops)
    ensures Cached(DoAll(s, ops), o) == Cached(s, o)
    decreases |ops|
  {
    if |ops| > 0 {
      assert ops[0] in ops;
      CachedStays(s, ops[0], o);
      hide Do, Cached;
      CachedSlotsStay(Do(s, ops[0]), ops[1..], o);
    }
  }

  lemma CachedStays(s: AtlasState, op: Op, o: Owner)
    requires Cached(s, o).Some? && (o.CellOf? || !op.Reset?)
    ensures Cached(Do(s, op), o) == Cached(s, o)
  {
    hide PlacePanel, PlaceCell;
  }

  // ---- what the texture shows ----

  /** The upload that last painted a texel. */
  function LastCover(us: seq<Upload>, x: nat, y: nat): (r: Option<nat>)
    ensures r.Some? ==> r.value < |us| && Covers(us[r.value].rect, x, y)
    ensures forall i :: (if r.Some? then r.value + 1 else 0) <= i < |us| ==> !Covers(us[i].rect, x, y)
  {
    if |us| == 0 then None
    else if Covers(us[|us| - 1].rect, x, y) then Some(|us| - 1)
    else LastCover(us[..|us| - 1], x, y)
  }

  /** The terminal's cells have not reached the interface section. */
  predicate CellsAbove(s: AtlasState) {
    forall i :: 0 <= i < |s.uploads| && s.uploads[i].owner.CellOf? ==>
      s.uploads[i].rect.y + s.uploads[i].rect.h <= UI_SECTION_Y
  }

  lemma CellsAboveWhileCursorIs(s: AtlasState)
    requires Inv(s) && s.cursor.y + s.cellH <= UI_SECTION_Y
    ensures CellsAbove(s)
  {
    forall i | 0 <= i < |s.uploads| && s.uploads[i].owner.CellOf?
      ensures s.uploads[i].rect.y + s.uploads[i].rect.h <= UI_SECTION_Y
    {
      assert PlacedOk(s, i);
    }
  }

  lemma TwoSlotsMeet(s: AtlasState, i: nat, j: nat, x: nat, y: nat)
    requires Inv(s) && i < j < |s.uploads| && Live(s, i)
    requires Covers(s.uploads[i].rect, x, y) && Covers(s.uploads[j].rect, x, y)
    ensures !CellsAbove(s)
  {
    assert PlacedOk(s, i) && PlacedOk(s, j) && PairOk(s, i, j);
  }

  /** NO SLOT IS PAINTED OVER. While the cells stay above the interface section, every texel of every cached slot shows
    the bitmap that was uploaded for it. */
  lemma CachedSlotsAreShown(s: AtlasState, o: Owner, x: nat, y: nat)
    requires Inv(s) && CellsAbove(s) && Cached(s, o).Some? && Covers(Cached(s, o).value, x, y)
    ensures var shown := LastCover(s.uploads, x, y);
            shown.Some? && s.uploads[shown.value].owner == o && s.uploads[shown.value].rect == Cached(s, o).value
  {
    assert Backed(s, o);
    var i :| 0 <= i < |s.uploads| && Live(s, i) && s.uploads[i].owner == o;
    assert PlacedOk(s, i);
    var shown := LastCover(s.uploads, x, y);
    if shown.value > i { TwoSlotsMeet(s, i, shown.value, x, y); }
  }

  /** The white block that underlines sample is reserved by neither packer: it is intact exactly when no slot handed
    out touches it. */
  lemma SolidIsIntactExactlyWhen(s: AtlasState)
    requires Inv(s)
    ensures (forall x, y :: Covers(SOLID, x, y) ==> LastCover(s.uploads, x, y) == Some(0))
            <==> forall i :: 0 < i < |s.uploads| ==> Apart(s.uploads[i].rect, SOLID)
  {
    assert PlacedOk(s, 0);
    if forall x, y :: Covers(SOLID, x, y) ==> LastCover(s.uploads, x, y) == Some(0) {
      forall i | 0 < i < |s.uploads| ensures Apart(s.uploads[i].rect, SOLID) {
        assert PlacedOk(s, i);
        var r := s.uploads[i].rect;
        var x, y := Max(r.x, SOLID.x), Max(r.y, SOLID.y);
        assert !Apart(r, SOLID) ==> Covers(SOLID, x, y) && Covers(r, x, y);
      }
    }
    if forall i :: 0 < i < |s.uploads| ==> Apart(s.uploads[i].rect, SOLID) {
      forall x, y | Covers(SOLID, x, y) ensures LastCover(s.uploads, x, y) == Some(0) {
        assert Covers(s.uploads[0].rect, x, y);
      }
    }
  }

  // ---- capacity ----

  /** The cell cursor after `n` requests for slots of one size. */
  function CursorAfter(w: nat, h: nat, n: nat): Cursor {
    if n == 0 then Cursor(0, 0) else PlaceCell(CursorAfter(w, h, n - 1), w, h).0
  }

  function Times(a: nat, b: nat): (r: nat) {
    assert a * b >= 0;
    a * b
  }

  /** How many sizes fit the texture's side. */
  function Count(size: nat): nat
    requires size > 0
  {
    ATLAS_PX / size
  }

  function RowOf(n: nat, cols: nat): nat
    requires cols > 0
  {
    n / cols
  }

  function ColOf(n: nat, cols: nat): (r: nat)
    requires cols > 0
    ensures r < cols
  {
    n % cols
  }

  lemma TimesStep(a: nat, b: nat)
    ensures Times(a + 1, b) == Times(a, b) + b && Times(0, b) == 0
  {
  }

  lemma {:induction false} TimesOrder(a: nat, b: nat, c: nat)
    requires a < b
    ensures Times(a, c) + c <= Times(b, c)
    decreases b
  {
    TimesStep(a, c);
    TimesStep(b - 1, c);
    hide Times;
    if a < b - 1 { TimesOrder(a, b - 1, c); }
  }

  lemma FitCount(j: nat, size: nat)
    requires size > 0
    ensures Times(j, size) + size <= ATLAS_PX <==> j < Count(size)
  {
    var n := Count(size);
    assert ATLAS_PX == Times(n, size) + ATLAS_PX % size;
    if j < n { TimesOrder(j, n, size); } else if n < j { TimesOrder(n, j, size); }
  }

  lemma {:induction false} Parts(n: nat, cols: nat)
    requires cols > 0
    ensures n == Times(RowOf(n, cols), cols) + ColOf(n, cols)
  {
  }

  lemma PartsAre(n: nat, cols: nat, q: nat, m: nat)
    requires cols > 0 && n == Times(q, cols) + m && m < cols
    ensures RowOf(n, cols) == q && ColOf(n, cols) == m
  {
    Parts(n, cols);
    var p := RowOf(n, cols);
    hide Times, RowOf, ColOf;
    if p < q { TimesOrder(p, q, cols); }
    if q < p { TimesOrder(q, p, cols); }
  }

  lemma PartsStep(n: nat, cols: nat)
    requires cols > 0
    ensures var q, m := RowOf(n, cols), ColOf(n, cols);
            if m + 1 == cols then RowOf(n + 1, cols) == q + 1 && ColOf(n + 1, cols) == 0
            else RowOf(n + 1, cols) == q && ColOf(n + 1, cols) == m + 1
  {
    var q, m := RowOf(n, cols), ColOf(n, cols);
    Parts(n, cols);
    TimesStep(q, cols);
    hide Times, RowOf, ColOf;
    if m + 1 == cols { PartsAre(n + 1, cols, q + 1, 0); } else { PartsAre(n + 1, cols, q, m + 1); }
  }

  lemma FirstPart(cols: nat)
    requires cols > 0
    ensures RowOf(0, cols) == 0 && ColOf(0, cols) == 0
  {
    TimesStep(0, cols);
    PartsAre(0, cols, 0, 0);
  }

  /** Where the cursor stands: behind slot `n - 1`, or at the end for good. */
  lemma {:induction false} CursorIs(w: nat, h: nat, n: nat)
    requires 0 < w <= ATLAS_PX && 0 < h
    ensures Count(w) > 0
    ensures n == 0 ==> CursorAfter(w, h, n) == Cursor(0, 0)
    ensures 0 < n && RowOf(n - 1, Count(w)) < Count(h) ==>
              CursorAfter(w, h, n) ==
              Cursor(Times(ColOf(n - 1, Count(w)), w) + w, Times(RowOf(n - 1, Count(w)), h))
    ensures 0 < n && RowOf(n - 1, Count(w)) >= Count(h) ==> CursorAfter(w, h, n) == Cursor(0, Times(Count(h), h))
  {
    FitCount(0, w);
    TimesStep(0, w);
    TimesStep(0, h);
    FitCount(0, h);
    FitCount(Count(h), h);
    hide Times, Count, RowOf, ColOf;
    FirstPart(Count(w));
    if n > 1 {
      CursorIs(w, h, n - 1);
      PartsStep(n - 2, Count(w));
      var i, j := RowOf(n - 2, Count(w)), ColOf(n - 2, Count(w));
      FitCount(j + 1, w);
      FitCount(i, h);
      FitCount(i + 1, h);
      TimesStep(i, h);
      TimesStep(j, w);
    }
  }

  lemma InRowsExactlyWhen(n: nat, cols: nat, rows: nat)
    requires cols > 0
    ensures n < Times(rows, cols) <==> RowOf(n, cols) < rows
  {
    Parts(n, cols);
    var q := RowOf(n, cols);
    hide Times, RowOf, ColOf;
    if q < rows { TimesOrder(q, rows, cols); } else if rows < q { TimesOrder(rows, q, cols); }
  }

  lemma NextSlot(w: nat, h: nat, n: nat)
    requires 0 < w <= ATLAS_PX && 0 < h && Count(w) > 0
    ensures PlaceCell(CursorAfter(w, h, n), w, h).1 ==
            if RowOf(n, Count(w)) < Count(h)
            then Some(Rect(Times(ColOf(n, Count(w)), w), Times(RowOf(n, Count(w)), h), w, h)) else None
  {
    var cols, rows := Count(w), Count(h);
    hide Times, Count, RowOf, ColOf;
    CursorIs(w, h, n);
    FitCount(0, w);
    TimesStep(0, w);
    TimesStep(0, h);
    FitCount(RowOf(n, cols), h);
    FitCount(rows, h);
    FirstPart(cols);
    if n > 0 {
      PartsStep(n - 1, cols);
      var i, j := RowOf(n - 1, cols), ColOf(n - 1, cols);
      FitCount(j + 1, w);
      FitCount(i, h);
      TimesStep(i, h);
      TimesStep(j, w);
    }
  }

  /** CAPACITY IS EXACT. Requests for one size succeed exactly until the texture holds all that fit, row by row, and
    every later one fails. */
  lemma CapacityIsExact(w: nat, h: nat, n: nat)
    requires 0 < w <= ATLAS_PX && 0 < h
    ensures Count(w) > 0
    ensures PlaceCell(CursorAfter(w, h, n), w, h).1 ==
            if n < Times(Count(h), Count(w))
            then Some(Rect(Times(ColOf(n, Count(w)), w), Times(RowOf(n, Count(w)), h), w, h)) else None
  {
    FitCount(0, w);
    TimesStep(0, w);
    hide Times, Count, RowOf, ColOf, PlaceCell, CursorAfter;
    InRowsExactlyWhen(n, Count(w), Count(h));
    NextSlot(w, h, n);
  }

  // ---- the object ----

  /** Rasterising and decoding happen elsewhere: their results are parameters. */
  class GlyphAtlas {
    const cellW: nat
    const cellH: nat
    const ascent: nat
    var glyphs: map<GlyphKey, GlyphInfo>
    var cursorX: nat
    var cursorY: nat
    var uiGlyphs: map<UIGlyphKey, UISlot>
    var icons: map<IconSlot, UISlot>
    var uiCursorX: nat
    var uiCursorY: nat
    var uiRowHeight: nat
    var texture: seq<Upload>
    ghost var since: nat

    ghost function State(): AtlasState
      reads this
    {
      AtlasState(cellW, cellH, ascent, Cursor(cursorX, cursorY), glyphs, PanelCursor(uiCursorX, uiCursorY, uiRowHeight),
                 uiGlyphs, icons, texture, since)
    }

    constructor (cellW: nat, cellH: nat, ascent: nat, ascii: nat -> Option<Raster>)
      ensures State() == Preloaded(New(cellW, cellH, ascent), ascii, 0x7F)
    {
      this.cellW, this.cellH, this.ascent := Max(cellW, 1), Max(cellH, 1), ascent;
      glyphs, cursorX, cursorY := map[], 0, 0;
      uiGlyphs, icons := map[], map[];
      uiCursorX, uiCursorY, uiRowHeight := 0, UI_SECTION_Y, 0;
      texture, since := [Upload(Solid, SOLID, White(SOLID_PX * SOLID_PX * 4))], 1;
      new;
      hide EnsureCell, SlotPixels;
      var ch := 0x20;
      while ch < 0x7F
        invariant 0x20 <= ch <= 0x7F
        invariant State() == Preloaded(New(cellW, cellH, ascent), ascii, ch)
      {
        Ensure(GlyphKey(ch, false, false), false, ascii(ch));
        ch := ch + 1;
      }
    }

    method ResetUICaches()
      modifies this
      ensures State() == ResetPanels(old(State()))
    {
      uiGlyphs := map[];
      icons := map[];
      uiCursorX, uiCursorY, uiRowHeight := 0, UI_SECTION_Y, 0;
      since := |texture|;
    }

    method Ensure(key: GlyphKey, wide: bool, raster: Option<Raster>)
      modifies this
      ensures State() == EnsureCell(old(State()), key, wide, raster)
    {
      hide SlotPixels;
      if key in glyphs { return; }
      var info := RasterizeAndUpload(key, wide, raster);
      if info.Some? { glyphs := glyphs[key := info.value]; }
    }

    method RasterizeAndUpload(key: GlyphKey, wide: bool, raster: Option<Raster>) returns (info: Option<GlyphInfo>)
      requires key !in glyphs
      modifies this`cursorX, this`cursorY, this`texture
      ensures info.None? ==> State() == EnsureCell(old(State()), key, wide, raster)
      ensures info.Some? ==>
        State().(glyphs := glyphs[key := info.value]) == EnsureCell(old(State()), key, wide, raster)
    {
      hide SlotPixels;
      if !IsChar(key.codepoint) || raster.None? { return None; }
      var r := raster.value;
      var isWide := wide || r.isColor;
      var slotW := if isWide then cellW * 2 else cellW;
      var slotH := cellH;
      if cursorX + slotW > ATLAS_PX {
        cursorX := 0;
        cursorY := cursorY + slotH;
      }
      if cursorY + slotH > ATLAS_PX { return None; }
      var rect := Rect(cursorX, cursorY, slotW, slotH);
      cursorX := cursorX + slotW;
      var pixels := Compose(slotW, slotH, ascent, r);
      texture := texture + [Upload(CellOf(key), rect, pixels)];
      info := Some(GlyphInfo(rect, isWide, r.isColor));
    }

    method EnsureUIGlyph(text: seq<nat>, hundredths: nat, raster: Option<Bitmap>) returns (slot: Option<UISlot>)
      modifies this
      ensures (State(), slot) == EnsureUI(old(State()), text, hundredths, raster)
    {
      hide PlacePanel;
      if |text| == 0 { return None; }
      var key := UIGlyphKey(text[0], hundredths);
      if key in uiGlyphs { return Some(uiGlyphs[key]); }
      if raster.None? { return None; }
      slot := PackUIBitmap(GlyphOf(key), raster.value);
      if slot.Some? { uiGlyphs := uiGlyphs[key := slot.value]; }
    }

    method EnsureIconSlot(icon: IconSlot, decoded: Bitmap) returns (slot: Option<UISlot>)
      modifies this
      ensures (State(), slot) == EnsureIcon(old(State()), icon, decoded)
    {
      hide PlacePanel;
      if icon in icons { return Some(icons[icon]); }
      slot := PackUIBitmap(IconOf(icon), decoded.(left := 0, top := 0));
      if slot.Some? { icons := icons[icon := slot.value]; }
    }

    method PackUIBitmap(owner: Owner, b: Bitmap) returns (slot: Option<UISlot>)
      modifies this`uiCursorX, this`uiCursorY, this`uiRowHeight, this`texture
      ensures (State(), slot) == PackPanel(old(State()), owner, b)
    {
      if b.width == 0 || b.height == 0 { return None; }
      if uiCursorX + b.width > ATLAS_PX {
        uiCursorY := uiCursorY + Max(uiRowHeight, 1);
        uiCursorX, uiRowHeight := 0, 0;
      }
      if uiCursorY + b.height > ATLAS_PX { return None; }
      var rect := Rect(uiCursorX, uiCursorY, b.width, b.height);
      uiCursorX := uiCursorX + b.width;
      uiRowHeight := Max(uiRowHeight, b.height);
      texture := texture + [Upload(owner, rect, b.pixels)];
      slot := Some(UISlot(rect, b.left, b.top));
    }
  }

  /** Printable ASCII below `end`, in order, regular weight. */
  function Preloaded(s: AtlasState, ascii: nat -> Option<Raster>, end: nat): AtlasState
    decreases end
  {
    if end <= 0x20 then s
    else EnsureCell(Preloaded(s, ascii, end - 1), GlyphKey(end - 1, false, false), false, ascii(end - 1))
  }
}
