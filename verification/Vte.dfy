/** The escape-sequence parser, as far as device control strings can see it.

  ECMA-48 section 5.6 (control strings), 8.3.27 (DCS) and 8.3.143 (ST). The CSI states are merged into one:
  they all leave on the same bytes and none of them can reach a DCS callback. */
module Vte {
  import opened Bytes

  datatype State =
    | Ground
    | Escape
    | EscapeIntermediate
    | Csi
    | OscString
    | SosPmApcString
    | DcsEntry
    | DcsParam
    | DcsIntermediate
    | DcsIgnore
    | DcsPassthrough

  datatype Parser = Parser(state: State, intermediates: seq<byte>)

  /** What the parser tells its listener about one byte. */
  datatype Callback = Silent | Hook(action: byte) | Put | Unhook

  const INITIAL := Parser(Ground, [])

  const MAX_INTERMEDIATES := 2

  function Collect(p: Parser, b: byte): Parser {
    if |p.intermediates| < MAX_INTERMEDIATES then p.(intermediates := p.intermediates + [b]) else p
  }

  /** Bytes handled alike in every state that does not treat them specially. */
  function Anywhere(p: Parser, b: byte): Parser {
    if b == ESC then Parser(Escape, [])
    else if b == 0x18 || b == 0x1A then p.(state := Ground)
    else p
  }

  function FromEscape(p: Parser, b: byte): Parser {
    if 0x20 <= b <= 0x2F then Collect(p, b).(state := EscapeIntermediate)
    else if b == 0x50 then Parser(DcsEntry, [])
    else if b == 0x58 || b == 0x5E || b == 0x5F then p.(state := SosPmApcString)
    else if b == 0x5B then Parser(Csi, [])
    else if b == 0x5D then p.(state := OscString)
    else if 0x30 <= b <= 0x7E || b == 0x18 || b == 0x1A then p.(state := Ground)
    else p
  }

  /** DCS header states: parameters, intermediates, then the final byte that hooks. */
  function FromDcsHeader(p: Parser, b: byte): Parser {
    if 0x20 <= b <= 0x2F then Collect(p, b).(state := DcsIntermediate)
    else if 0x30 <= b <= 0x3B then p.(state := if p.state == DcsIntermediate then DcsIgnore else DcsParam)
    else if 0x3C <= b <= 0x3F then
      (if p.state == DcsEntry then Collect(p, b).(state := DcsParam) else p.(state := DcsIgnore))
    else if 0x40 <= b <= 0x7E then p.(state := DcsPassthrough)
    else Anywhere(p, b)
  }

  function Next(p: Parser, b: byte): Parser {
    match p.state
    case Ground => if b == ESC then Parser(Escape, []) else p
    case Escape => FromEscape(p, b)
    case EscapeIntermediate =>
      if 0x20 <= b <= 0x2F then Collect(p, b)
      else if 0x30 <= b <= 0x7E then p.(state := Ground)
      else Anywhere(p, b)
    case Csi => if 0x40 <= b <= 0x7E then p.(state := Ground) else Anywhere(p, b)
    case OscString => if b == 0x07 then p.(state := Ground) else Anywhere(p, b)
    case SosPmApcString => Anywhere(p, b)
    case DcsEntry => FromDcsHeader(p, b)
    case DcsParam => FromDcsHeader(p, b)
    case DcsIntermediate => FromDcsHeader(p, b)
    case DcsIgnore => Anywhere(p, b)
    case DcsPassthrough => if b == ST8 then p.(state := Ground) else Anywhere(p, b)
  }

  function Call(p: Parser, b: byte): Callback {
    match p.state
    case DcsEntry => if 0x40 <= b <= 0x7E then Hook(b) else Silent
    case DcsParam => if 0x40 <= b <= 0x7E then Hook(b) else Silent
    case DcsIntermediate => if 0x40 <= b <= 0x7E then Hook(b) else Silent
    case DcsPassthrough =>
      if b == ST8 || b == ESC || b == 0x18 || b == 0x1A then Unhook
      else if b < 0x7F then Put
      else Silent
    case _ => Silent
  }
}
