/** Cell colours: resolved at once, or kept as intent and resolved later. */
module Colour {
  import opened Bytes

  datatype Rgb = Rgb(r: byte, g: byte, b: byte)

  datatype PaletteData = PaletteData(defaultFg: Rgb, defaultBg: Rgb, ansi: seq<Rgb>)

  type Palette = p: PaletteData | |p.ansi| == 16
    witness PaletteData(Rgb(0, 0, 0), Rgb(0, 0, 0), seq(16, _ => Rgb(0, 0, 0)))

  datatype NamedColor =
    | Black | Red | Green | Yellow | Blue | Magenta | Cyan | White
    | BrightBlack | BrightRed | BrightGreen | BrightYellow | BrightBlue | BrightMagenta | BrightCyan | BrightWhite
    | Foreground | Background | Cursor
    | DimBlack | DimRed | DimGreen | DimYellow | DimBlue | DimMagenta | DimCyan | DimWhite
    | BrightForeground | DimForeground

  datatype Color = Named(name: NamedColor) | Spec(rgb: Rgb) | Indexed(i: byte)

  /** The stored form: four bytes, the first one telling how to read the others. */
  datatype CellColor = CellColor(kind: byte, v0: byte, v1: byte, v2: byte)

  function Pack(c: Rgb): nat {
    c.r * 0x100_0000 + c.g * 0x1_0000 + c.b * 0x100 + 0xFF
  }

  function Scale(v: nat): (r: byte)
    requires v <= 5
  {
    if v == 0 then 0 else 55 + v * 40
  }

  /** The 6x6x6 cube and the grey ramp; no intermediate value leaves a byte. */
  function CubeOrGrey(i: byte): Rgb
    requires i >= 16
  {
    if i < 232 then
      var idx: byte := i - 16;
      Rgb(Scale(idx / 36), Scale(idx / 6 % 6), Scale(idx % 6))
    else
      var level: byte := 8 + (i - 232) * 10;
      Rgb(level, level, level)
  }

  function FromIndex(i: byte, p: Palette): Rgb {
    if i < 16 then p.ansi[i] else CubeOrGrey(i)
  }

  function FromName(n: NamedColor, p: Palette): Rgb {
    match n
    case Foreground | BrightForeground | DimForeground => p.defaultFg
    case Background => p.defaultBg
    case Black | DimBlack => p.ansi[0]
    case Red | DimRed => p.ansi[1]
    case Green | DimGreen => p.ansi[2]
    case Yellow | DimYellow => p.ansi[3]
    case Blue | DimBlue => p.ansi[4]
    case Magenta | DimMagenta => p.ansi[5]
    case Cyan | DimCyan => p.ansi[6]
    case White | DimWhite => p.ansi[7]
    case BrightBlack => p.ansi[8]
    case BrightRed => p.ansi[9]
    case BrightGreen => p.ansi[10]
    case BrightYellow => p.ansi[11]
    case BrightBlue => p.ansi[12]
    case BrightMagenta => p.ansi[13]
    case BrightCyan => p.ansi[14]
    case BrightWhite => p.ansi[15]
    case Cursor => p.defaultFg
  }

  /** Resolve now. */
  function ToRgba(c: Color, p: Palette): nat {
    match c
    case Spec(rgb) => Pack(rgb)
    case Named(name) => Pack(FromName(name, p))
    case Indexed(i) => Pack(FromIndex(i, p))
  }

  function Slot(n: NamedColor): byte {
    match n
    case Foreground | BrightForeground | DimForeground => 0
    case Background => 1
    case Black | DimBlack => 2
    case Red | DimRed => 3
    case Green | DimGreen => 4
    case Yellow | DimYellow => 5
    case Blue | DimBlue => 6
    case Magenta | DimMagenta => 7
    case Cyan | DimCyan => 8
    case White | DimWhite => 9
    case BrightBlack => 10
    case BrightRed => 11
    case BrightGreen => 12
    case BrightYellow => 13
    case BrightBlue => 14
    case BrightMagenta => 15
    case BrightCyan => 16
    case BrightWhite => 17
    case Cursor => 0
  }

  function Keep(c: Color): CellColor {
    match c
    case Spec(rgb) => CellColor(2, rgb.r, rgb.g, rgb.b)
    case Indexed(i) => CellColor(1, i, 0, 0)
    case Named(name) => CellColor(0, Slot(name), 0, 0)
  }

  function FromSlot(slot: byte, p: Palette): Rgb {
    if slot == 0 then p.defaultFg
    else if slot == 1 then p.defaultBg
    else if slot <= 17 then p.ansi[slot - 2]
    else p.defaultFg
  }

  /** Resolve later. */
  function Resolve(c: CellColor, p: Palette): nat {
    if c.kind == 0 then Pack(FromSlot(c.v0, p))
    else if c.kind == 1 then Pack(FromIndex(c.v0, p))
    else if c.kind == 2 then Pack(Rgb(c.v0, c.v1, c.v2))
    else Pack(p.defaultFg)
  }

  /** Deferring the palette changes no colour, for every colour and every palette. */
  lemma DeferredColour(c: Color, p: Palette)
    ensures Resolve(Keep(c), p) == ToRgba(c, p)
  {
    if c.Named? { assert FromSlot(Slot(c.name), p) == FromName(c.name, p); }
  }

  /** Packing loses nothing: opaque, and each channel sits in its own byte. */
  lemma PackKeepsChannels(c: Rgb)
    ensures var n := Pack(c);
            && n < 0x1_0000_0000
            && n % 0x100 == 0xFF
            && n / 0x100_0000 == c.r && n / 0x1_0000 % 0x100 == c.g && n / 0x100 % 0x100 == c.b
  {
    var n := Pack(c);
    assert n / 0x100 == c.r * 0x1_0000 + c.g * 0x100 + c.b;
    assert n / 0x1_0000 == c.r * 0x100 + c.g;
  }
}
