/** Streams made of text and control strings, and what the sniffer finds in them. */
module Stream {
  import opened Bytes
  import opened Vte
  import opened Wire
  import opened WirePrinter
  import opened Sniffer

  /** A string terminator in either form, or one of the two controls that abort a string. */
  datatype Terminator = EightBit | SevenBit | Cancel | Substitute

  const CAN: byte := 0x18
  const SUB: byte := 0x1A

  function TerminatorBytes(st: Terminator): seq<byte> {
    match st
    case EightBit => [ST8]
    case SevenBit => [ESC, BACKSLASH]
    case Cancel => [CAN]
    case Substitute => [SUB]
  }

  const DCS: seq<byte> := [ESC, 0x50]
  const OURS: seq<byte> := [DCS_INTERMEDIATE, DCS_FINAL]

  /** ESC-free text; text with whole escape sequences; a bare `$d` frame with any body; any other device control string
    with a well-formed header: a private marker, parameters, intermediates and a final byte. */
  datatype Piece =
    | Plain(text: seq<byte>)
    | Styled(text: seq<byte>)
    | Frame(body: seq<byte>, st: Terminator)
    | Device(marker: seq<byte>, params: seq<byte>, inters: seq<byte>, final: byte, data: seq<byte>, st: Terminator)

  predicate Within(s: seq<byte>, low: int, high: int) {
    forall j :: 0 <= j < |s| ==> low <= s[j] <= high
  }

  predicate EscFree(s: seq<byte>) {
    forall j :: 0 <= j < |s| ==> s[j] != ESC
  }

  predicate Printable(s: seq<byte>) {
    Within(s, 0x20, 0x7E)
  }

  /** Bytes that do not end a control string. */
  predicate Endless(s: seq<byte>) {
    forall j :: 0 <= j < |s| ==> s[j] != ESC && s[j] != ST8 && s[j] != CAN && s[j] != SUB
  }

  /** The body bytes that the parser passes on. */
  function Collected(s: seq<byte>): seq<byte> {
    if |s| == 0 then [] else (if s[0] < 0x7F then [s[0]] else []) + Collected(s[1..])
  }

  predicate Idle(c: Core) {
    c.parser.state == Ground && !c.isOurs
  }

  /** From the ground state, whole escape sequences that lead back to it and complete no event. */
  predicate Unheard(text: seq<byte>) {
    Events(START, text) == [] && Idle(Run(START, text))
  }

  predicate Good(p: Piece) {
    match p
    case Plain(text) => EscFree(text)
    case Styled(text) => Unheard(text)
    case Frame(body, _) => Endless(body)
    case Device(marker, params, inters, final, data, _) =>
      && |marker| <= 1 && Within(marker, 0x3C, 0x3F)
      && Within(params, 0x30, 0x3B)
      && Within(inters, 0x20, 0x2F)
      && 0x40 <= final <= 0x7E
      && Endless(data)
      && !(marker + params == [] && inters == [DCS_INTERMEDIATE] && final == DCS_FINAL)
  }

  /** The sniffer takes the string for one of ours: it looks at the intermediates and the final byte only. */
  predicate Claimed(p: Piece) {
    p.Frame? || (p.Device? && p.marker == [] && p.inters == [DCS_INTERMEDIATE] && p.final == DCS_FINAL)
  }

  function Body(p: Piece): seq<byte>
    requires p.Frame? || p.Device?
  {
    if p.Frame? then p.body else p.data
  }

  function HeaderBytes(p: Piece): seq<byte>
    requires p.Frame? || p.Device?
  {
    if p.Frame? then OURS else p.marker + (p.params + p.inters + [p.final])
  }

  /** Everything between `ESC P` and the terminator. */
  function Inner(p: Piece): seq<byte>
    requires p.Frame? || p.Device?
  {
    HeaderBytes(p) + Body(p)
  }

  function Render(p: Piece): seq<byte> {
    if p.Plain? || p.Styled? then p.text else DCS + Inner(p) + TerminatorBytes(p.st)
  }

  function RenderAll(ps: seq<Piece>): seq<byte> {
    if |ps| == 0 then [] else Render(ps[0]) + RenderAll(ps[1..])
  }

  function Says(p: Piece): Option<DcsEvent> {
    if Claimed(p) then ParseBody(Collected(Body(p))) else None
  }

  predicate AllGood(ps: seq<Piece>) {
    |ps| == 0 || (Good(ps[0]) && AllGood(ps[1..]))
  }

  /** The reference answer: each well-formed frame, from its ESC to one past its terminator. */
  function Expected(ps: seq<Piece>, at: nat): seq<Located>
    decreases |ps|
  {
    if |ps| == 0 then []
    else
      var end := at + |Render(ps[0])|;
      (if Says(ps[0]).Some? then [Located(Some(at), end, Says(ps[0]).value)] else []) + Expected(ps[1..], end)
  }

  // ---- positions concatenate ----

  lemma Consume(k: Tracker, s: seq<byte>, at: nat)
    requires |s| > 0
    ensures var found, rest := Emit(k.core, s[0]), Locate(Track(k, s[0], at), s[1..], at + 1);
            Locate(k, s, at) ==
            if found.Some? then [Located(StartAt(k, s[0], at), EndAt(s, at), found.value)] + rest else rest
    ensures TrackAll(k, s, at) == TrackAll(Track(k, s[0], at), s[1..], at + 1)
  {
  }

  lemma ConsumeTwo(k: Tracker, a: byte, b: byte, at: nat)
    ensures var k1 := Track(k, a, at);
            && TrackAll(k, [a, b], at) == Track(k1, b, at + 1)
            && (Emit(k.core, a).None? && Emit(k1.core, b).None? ==> Locate(k, [a, b], at) == [])
  {
    hide Track, Emit, StartAt;
    Consume(k, [a, b], at);
    assert [a, b][1..] == [b] && [b][1..] == [];
    Consume(Track(k, a, at), [b], at + 1);
  }

  /** Unless a 7-bit terminator is cut between its two bytes, positions too can be computed piece by piece. */
  lemma {:induction false} LocatingConcatenates(k: Tracker, a: seq<byte>, b: seq<byte>, at: nat)
    requires EndsOpen(a) ==> |b| == 0 || b[0] != BACKSLASH
    ensures Locate(k, a + b, at) == Locate(k, a, at) + Locate(TrackAll(k, a, at), b, at + |a|)
    ensures TrackAll(k, a + b, at) == TrackAll(TrackAll(k, a, at), b, at + |a|)
    decreases |a|
  {
    if |a| == 0 {
      assert a + b == b;
      FeedNothing(k, at);
    } else {
      hide Track, Emit, StartAt, EndAt, Locate, TrackAll;
      SameEnd(a, b, at);
      var next := Track(k, a[0], at);
      LocatingConcatenates(next, a[1..], b, at + 1);
      Consume(k, a + b, at);
      Consume(k, a, at);
      var found := Emit(k.core, a[0]);
      if found.Some? {
        Associate([Located(StartAt(k, a[0], at), EndAt(a, at), found.value)], Locate(next, a[1..], at + 1),
                  Locate(TrackAll(k, a, at), b, at + |a|));
      }
    }
  }

  lemma SameEnd(a: seq<byte>, b: seq<byte>, at: nat)
    requires |a| > 0
    requires |a| == 1 && a[0] == ESC ==> |b| == 0 || b[0] != BACKSLASH
    ensures (a + b)[0] == a[0] && (a + b)[1..] == a[1..] + b && EndAt(a + b, at) == EndAt(a, at)
  {
    if |a| > 1 {
      assert (a + b)[1] == a[1];
    } else if |b| > 0 {
      assert (a + b)[1] == b[0];
    }
  }

  // ---- what the sniffer does on each kind of piece ----

  lemma {:induction false} TextIsSilent(k: Tracker, text: seq<byte>, at: nat)
    requires Idle(k.core) && EscFree(text)
    ensures Locate(k, text, at) == [] && TrackAll(k, text, at) == k
    decreases |text|
  {
    if |text| > 0 {
      assert Track(k, text[0], at) == k;
      TextIsSilent(k, text[1..], at + 1);
    }
  }

  /** Cores that no further input can tell apart: on the ground, collected bytes no longer matter. */
  predicate Alike(c: Core, d: Core) {
    && c.parser.state == d.parser.state && c.isOurs == d.isOurs && Sane(c)
    && (c.parser.state != Ground ==> c.parser.intermediates == d.parser.intermediates)
    && (c.isOurs ==> c.buf == d.buf)
  }

  lemma AlikeStep(c: Core, d: Core, b: byte)
    requires Alike(c, d)
    ensures Alike(Step(c, b), Step(d, b)) && Emit(c, b) == Emit(d, b)
  {
    hide ParseBody;
  }

  lemma {:induction false} AlikeRun(c: Core, d: Core, bs: seq<byte>)
    requires Alike(c, d)
    ensures Alike(Run(c, bs), Run(d, bs)) && Events(c, bs) == Events(d, bs)
    decreases |bs|
  {
    if |bs| > 0 {
      AlikeStep(c, d, bs[0]);
      hide Alike, Step, Emit;
      AlikeRun(Step(c, bs[0]), Step(d, bs[0]), bs[1..]);
    }
  }

  lemma StyledIsSilent(k: Tracker, text: seq<byte>, at: nat)
    requires Idle(k.core) && Unheard(text)
    ensures Locate(k, text, at) == [] && Idle(TrackAll(k, text, at).core)
  {
    assert Alike(START, k.core);
    AlikeRun(START, k.core, text);
    hide Run, Events, Locate, TrackAll;
    TrackingRuns(k, text, at);
    LocatedEventsAreTheEvents(k, text, at);
    assert |Locate(k, text, at)| > 0 ==> |EventOf(Locate(k, text, at))| > 0;
  }

  /** All ESC-free text is unheard; so are unheard texts one after the other. */
  lemma PlainIsUnheard(text: seq<byte>)
    requires EscFree(text)
    ensures Unheard(text)
  {
    var k := Tracker(START, None, None);
    TextIsSilent(k, text, 0);
    TrackingRuns(k, text, 0);
    LocatedEventsAreTheEvents(k, text, 0);
  }

  lemma UnheardConcatenates(a: seq<byte>, b: seq<byte>)
    requires Unheard(a) && Unheard(b)
    ensures Unheard(a + b)
  {
    FeedingConcatenates(START, a, b);
    assert Alike(START, Run(START, a));
    AlikeRun(START, Run(START, a), b);
  }

  lemma {:induction false} CsiBodyIsSilent(c: Core, body: seq<byte>)
    requires c.parser.state == Csi && !c.isOurs && Within(body, 0x20, 0x3F)
    ensures Events(c, body) == [] && Run(c, body) == c
    decreases |body|
  {
    if |body| > 0 {
      assert Step(c, body[0]) == c;
      CsiBodyIsSilent(c, body[1..]);
    }
  }

  /** A whole CSI sequence (colours, cursor moves, screen switches) is unheard. */
  lemma CsiIsUnheard(body: seq<byte>, final: byte)
    requires Within(body, 0x20, 0x3F) && 0x40 <= final <= 0x7E
    ensures Unheard([ESC, 0x5B] + (body + [final]))
  {
    var c1 := Step(START, ESC);
    var c2 := Step(c1, 0x5B);
    assert c2 == START.(parser := Parser(Csi, []));
    assert Call(c2.parser, final) == Silent;
    var intro: seq<byte> := [ESC, 0x5B];
    assert intro[1..] == [0x5B] && [0x5B][1..] == [];
    assert Run(c1, [0x5B]) == c2 && Events(c1, [0x5B]) == [];
    assert Run(START, intro) == c2 && Events(START, intro) == [];
    CsiBodyIsSilent(c2, body);
    FeedingConcatenates(START, intro, body + [final]);
    FeedingConcatenates(c2, body, [final]);
    assert [final][1..] == [];
    assert Idle(Step(c2, final)) && Emit(c2, final).None?;
  }

  lemma {:induction false} PrintableIsCollected(s: seq<byte>)
    requires Printable(s)
    ensures Collected(s) == s && Endless(s)
  {
    if |s| > 0 {
      PrintableIsCollected(s[1..]);
      assert [s[0]] + s[1..] == s;
    }
  }

  lemma DatumIsCollected(k: Tracker, b: byte, at: nat)
    requires k.core.parser.state == DcsPassthrough && Endless([b])
    ensures Emit(k.core, b).None?
    ensures Track(k, b, at) ==
            if k.core.isOurs && b < 0x7F then k.(core := k.core.(buf := k.core.buf + [b])) else k
  {
    hide ParseBody;
    assert [b][0] == b;
  }

  /** Bytes inside a control string are collected if it is ours, dropped if not. */
  lemma {:induction false} DataIsCollected(k: Tracker, data: seq<byte>, at: nat)
    requires k.core.parser.state == DcsPassthrough && Endless(data)
    ensures Locate(k, data, at) == []
    ensures TrackAll(k, data, at) ==
            if k.core.isOurs then k.(core := k.core.(buf := k.core.buf + Collected(data))) else k
    decreases |data|
  {
    hide Locate, TrackAll, Track, Emit, StartAt;
    if |data| == 0 {
      FeedNothing(k, at);
      assert k.core.buf + Collected(data) == k.core.buf;
    } else {
      Consume(k, data, at);
      DatumIsCollected(k, data[0], at);
      DataIsCollected(Track(k, data[0], at), data[1..], at + 1);
      var head: seq<byte> := if data[0] < 0x7F then [data[0]] else [];
      assert k.core.buf + [] == k.core.buf;
      Associate(k.core.buf, head, Collected(data[1..]));
    }
  }

  /** The byte that ends a control string, and the backslash behind an ESC. */
  lemma EndingBytes(k: Tracker, b: byte, at: nat)
    requires k.core.parser.state == DcsPassthrough && (b == ST8 || b == ESC || b == CAN || b == SUB)
    ensures Emit(k.core, b) == (if k.core.isOurs then ParseBody(k.core.buf) else None)
    ensures StartAt(k, b, at) == k.frameStart
    ensures var n := Track(k, b, at);
            && (b != ESC ==> Idle(n.core))
            && (b == ESC ==> Idle(Track(n, BACKSLASH, at + 1).core) && Emit(n.core, BACKSLASH).None?)
  {
    hide ParseBody;
  }

  lemma TerminatorEnds(k: Tracker, st: Terminator, at: nat)
    requires k.core.parser.state == DcsPassthrough
    ensures var t := TerminatorBytes(st); var event := if k.core.isOurs then ParseBody(k.core.buf) else None;
            && Idle(TrackAll(k, t, at).core)
            && Locate(k, t, at) ==
               if event.Some? then [Located(k.frameStart, at + |t|, event.value)] else []
  {
    hide ParseBody, Locate, TrackAll, Track, Emit, StartAt, Idle;
    var t := TerminatorBytes(st);
    var k1 := Track(k, t[0], at);
    EndingBytes(k, t[0], at);
    Consume(k, t, at);
    if st == SevenBit {
      assert t[1..] == [BACKSLASH] && [BACKSLASH][1..] == [];
      Consume(k1, [BACKSLASH], at + 1);
      FeedNothing(Track(k1, BACKSLASH, at + 1), at + 2);
    } else {
      assert t[1..] == [];
      FeedNothing(k1, at + 1);
    }
  }

  lemma Introducer(k: Tracker, at: nat)
    requires Idle(k.core)
    ensures TrackAll(k, DCS, at) == Tracker(Core(Parser(DcsEntry, []), false, k.core.buf), Some(at), k.frameStart)
    ensures Locate(k, DCS, at) == []
  {
    var k1 := Track(k, ESC, at);
    ConsumeTwo(k, ESC, 0x50, at);
    assert Track(k1, 0x50, at + 1) == Tracker(Core(Parser(DcsEntry, []), false, k.core.buf), Some(at), k.frameStart);
  }

  lemma OurHeader(k: Tracker, at: nat)
    requires k.core.parser == Parser(DcsEntry, []) && !k.core.isOurs
    ensures TrackAll(k, OURS, at) ==
            Tracker(Core(Parser(DcsPassthrough, [DCS_INTERMEDIATE]), true, []), None, k.lastEsc)
    ensures Locate(k, OURS, at) == []
  {
    var k1 := Track(k, DCS_INTERMEDIATE, at);
    ConsumeTwo(k, DCS_INTERMEDIATE, DCS_FINAL, at);
    assert k1 == k.(core := k.core.(parser := Parser(DcsIntermediate, [DCS_INTERMEDIATE])));
    assert Track(k1, DCS_FINAL, at + 1) ==
           Tracker(Core(Parser(DcsPassthrough, [DCS_INTERMEDIATE]), true, []), None, k.lastEsc);
  }

  lemma {:induction false} ParamsAreRead(k: Tracker, params: seq<byte>, at: nat)
    requires k.core.parser.state in [DcsEntry, DcsParam] && !k.core.isOurs
    requires Within(params, 0x30, 0x3B)
    ensures Locate(k, params, at) == []
    ensures var r := TrackAll(k, params, at);
            && r.core.parser.state in [DcsEntry, DcsParam]
            && r == k.(core := k.core.(parser := k.core.parser.(state := r.core.parser.state)))
    decreases |params|
  {
    if |params| > 0 {
      ParamsAreRead(Track(k, params[0], at), params[1..], at + 1);
    }
  }

  /** Two intermediates are kept, more are dropped. */
  function FirstTwo(s: seq<byte>): seq<byte> {
    if |s| <= MAX_INTERMEDIATES then s else s[..MAX_INTERMEDIATES]
  }

  lemma FirstTwoAgain(a: seq<byte>, b: byte, c: seq<byte>)
    ensures FirstTwo(FirstTwo(a + [b]) + c) == FirstTwo(a + ([b] + c))
    ensures FirstTwo(FirstTwo(a)) == FirstTwo(a)
  {
    var s := a + ([b] + c);
    assert s == (a + [b]) + c;
    if |a + [b]| > MAX_INTERMEDIATES {
      assert (FirstTwo(a + [b]) + c)[..MAX_INTERMEDIATES] == s[..MAX_INTERMEDIATES];
    }
  }

  predicate InHeader(c: Core) {
    c.parser.state in [DcsEntry, DcsParam, DcsIntermediate] && !c.isOurs
      && |c.parser.intermediates| <= MAX_INTERMEDIATES
  }

  lemma InterStep(k: Tracker, b: byte, at: nat)
    requires InHeader(k.core) && 0x20 <= b <= 0x2F
    ensures Emit(k.core, b).None?
    ensures Track(k, b, at) ==
            k.(core := k.core.(parser := Parser(DcsIntermediate, FirstTwo(k.core.parser.intermediates + [b]))))
    ensures InHeader(Track(k, b, at).core)
  {
    hide ParseBody;
    assert (k.core.parser.intermediates + [b])[..|k.core.parser.intermediates|] == k.core.parser.intermediates;
  }

  lemma {:induction false} IntersAreCollected(k: Tracker, inters: seq<byte>, at: nat)
    requires InHeader(k.core) && Within(inters, 0x20, 0x2F)
    ensures Locate(k, inters, at) == []
    ensures var r := TrackAll(k, inters, at);
            && InHeader(r.core) && r == k.(core := k.core.(parser := r.core.parser))
            && r.core.parser.intermediates == FirstTwo(k.core.parser.intermediates + inters)
    decreases |inters|
  {
    hide TrackAll, Locate, Track, Emit, StartAt, InHeader, FirstTwo;
    var before := k.core.parser.intermediates;
    if |inters| == 0 {
      FeedNothing(k, at);
      assert before + inters == before;
      ShortStays(k.core);
    } else {
      Consume(k, inters, at);
      InterStep(k, inters[0], at);
      IntersAreCollected(Track(k, inters[0], at), inters[1..], at + 1);
      assert [inters[0]] + inters[1..] == inters;
      FirstTwoAgain(before, inters[0], inters[1..]);
    }
  }

  lemma ShortStays(c: Core)
    requires InHeader(c)
    ensures FirstTwo(c.parser.intermediates) == c.parser.intermediates
  {
  }

  lemma MarkerIsRead(k: Tracker, marker: seq<byte>, at: nat)
    requires k.core.parser == Parser(DcsEntry, []) && !k.core.isOurs && |marker| <= 1 && Within(marker, 0x3C, 0x3F)
    ensures Locate(k, marker, at) == []
    ensures var r := TrackAll(k, marker, at);
            && r.core.parser.state in [DcsEntry, DcsParam] && r.core.parser.intermediates == marker
            && r == k.(core := k.core.(parser := r.core.parser))
  {
    if |marker| == 1 {
      assert [] + [marker[0]] == marker && marker[1..] == [];
      assert Track(k, marker[0], at) == k.(core := k.core.(parser := Parser(DcsParam, [marker[0]])));
    }
  }

  lemma PlainHeader(k: Tracker, params: seq<byte>, inters: seq<byte>, final: byte, at: nat)
    requires InHeader(k.core) && k.core.parser.state != DcsIntermediate
    requires Within(params, 0x30, 0x3B)
    requires Within(inters, 0x20, 0x2F)
    requires 0x40 <= final <= 0x7E
    ensures var header := params + inters + [final]; var r := TrackAll(k, header, at);
            && Locate(k, header, at) == []
            && r.core.parser.state == DcsPassthrough
            && r.core.isOurs ==
               (FirstTwo(k.core.parser.intermediates + inters) == [DCS_INTERMEDIATE] && final == DCS_FINAL)
            && (r.core.isOurs ==> r.frameStart == k.lastEsc && r.core.buf == [])
  {
    hide TrackAll, Locate, Within, EndsOpen, FirstTwo;
    EndsClean(params, 0x30, 0x3B);
    EndsClean(inters, 0x20, 0x2F);
    var k1, at1 := TrackAll(k, params, at), at + |params|;
    ParamsAreRead(k, params, at);
    IntersAreCollected(k1, inters, at1);
    var k2, at2 := TrackAll(k1, inters, at1), at1 + |inters|;
    FinalHooks(k2, final, at2);
    LocatingConcatenates(k1, inters, [final], at1);
    LocatingConcatenates(k, params, inters + [final], at);
    assert params + (inters + [final]) == params + inters + [final];
  }

  /** Parameters, intermediates and a private marker decide whose string it is. */
  lemma DeviceHeader(k: Tracker, marker: seq<byte>, params: seq<byte>, inters: seq<byte>, final: byte, at: nat)
    requires k.core.parser == Parser(DcsEntry, []) && !k.core.isOurs
    requires |marker| <= 1 && Within(marker, 0x3C, 0x3F)
    requires Within(params, 0x30, 0x3B)
    requires Within(inters, 0x20, 0x2F)
    requires 0x40 <= final <= 0x7E
    ensures var header := marker + (params + inters + [final]); var r := TrackAll(k, header, at);
            && Locate(k, header, at) == []
            && r.core.parser.state == DcsPassthrough
            && r.core.isOurs == (marker == [] && inters == [DCS_INTERMEDIATE] && final == DCS_FINAL)
            && (r.core.isOurs ==> r.frameStart == k.lastEsc && r.core.buf == [])
  {
    hide TrackAll, Locate, EndsOpen;
    EndsClean(marker, 0x3C, 0x3F);
    MarkerIsRead(k, marker, at);
    OnlyOurs(marker, inters);
    hide Within, FirstTwo;
    PlainHeader(TrackAll(k, marker, at), params, inters, final, at + |marker|);
    LocatingConcatenates(k, marker, params + inters + [final], at);
  }

  lemma OnlyOurs(marker: seq<byte>, inters: seq<byte>)
    requires |marker| <= 1 && Within(marker, 0x3C, 0x3F)
    ensures FirstTwo(marker + inters) == [DCS_INTERMEDIATE] <==> marker == [] && inters == [DCS_INTERMEDIATE]
  {
    var all := marker + inters;
    if marker == [] {
      assert all == inters;
    } else {
      assert all[0] == marker[0] != DCS_INTERMEDIATE;
      assert FirstTwo(all)[0] == marker[0];
    }
  }

  lemma EndsClean(s: seq<byte>, low: int, high: int)
    requires low >= 0x20 && Within(s, low, high)
    ensures !EndsOpen(s)
  {
  }

  lemma FinalHooks(k: Tracker, final: byte, at: nat)
    requires k.core.parser.state in [DcsEntry, DcsParam, DcsIntermediate] && !k.core.isOurs
    requires 0x40 <= final <= 0x7E
    ensures Locate(k, [final], at) == []
    ensures var r := TrackAll(k, [final], at);
            && r.core.parser.state == DcsPassthrough
            && r.core.isOurs == (k.core.parser.intermediates == [DCS_INTERMEDIATE] && final == DCS_FINAL)
            && (r.core.isOurs ==> r.frameStart == k.lastEsc && r.core.buf == [])
  {
    var r := Track(k, final, at);
    assert [final][1..] == [];
    assert Emit(k.core, final).None?;
    assert TrackAll(k, [final], at) == r;
  }

  predicate EndsOpen(s: seq<byte>) {
    |s| > 0 && s[|s| - 1] == ESC
  }

  lemma FourParts(k: Tracker, a: seq<byte>, b: seq<byte>, c: seq<byte>, d: seq<byte>, at: nat)
    requires !EndsOpen(a) && !EndsOpen(b) && !EndsOpen(c)
    ensures var k1, at1 := TrackAll(k, a, at), at + |a|;
            var k2, at2 := TrackAll(k1, b, at1), at1 + |b|;
            var k3, at3 := TrackAll(k2, c, at2), at2 + |c|;
            && Locate(k, a + (b + (c + d)), at) ==
               Locate(k, a, at) + (Locate(k1, b, at1) + (Locate(k2, c, at2) + Locate(k3, d, at3)))
            && TrackAll(k, a + (b + (c + d)), at) == TrackAll(k3, d, at3)
  {
    hide TrackAll, Locate;
    var k1, at1 := TrackAll(k, a, at), at + |a|;
    var k2, at2 := TrackAll(k1, b, at1), at1 + |b|;
    LocatingConcatenates(k2, c, d, at2);
    LocatingConcatenates(k1, b, c + d, at1);
    LocatingConcatenates(k, a, b + (c + d), at);
  }

  /** A control string whose header is silent emits one event or none, at its own position. */
  lemma ControlString(k: Tracker, header: seq<byte>, data: seq<byte>, st: Terminator, at: nat)
    requires Idle(k.core) && Endless(data) && !EndsOpen(header)
    requires var k1 := TrackAll(k, DCS, at); var k2 := TrackAll(k1, header, at + 2);
             && Locate(k1, header, at + 2) == []
             && k2.core.parser.state == DcsPassthrough
             && (k2.core.isOurs ==> k2.frameStart == Some(at) && k2.core.buf == [])
    ensures var s := DCS + (header + (data + TerminatorBytes(st)));
            var ours := TrackAll(TrackAll(k, DCS, at), header, at + 2).core.isOurs;
            var event := if ours then ParseBody(Collected(data)) else None;
            && Idle(TrackAll(k, s, at).core)
            && Locate(k, s, at) == if event.Some? then [Located(Some(at), at + |s|, event.value)] else []
  {
    hide TrackAll, Locate, ParseBody;
    var t := TerminatorBytes(st);
    Introducer(k, at);
    var k1, at1 := TrackAll(k, DCS, at), at + 2;
    var k2, at2 := TrackAll(k1, header, at1), at1 + |header|;
    DataIsCollected(k2, data, at2);
    var k3, at3 := TrackAll(k2, data, at2), at2 + |data|;
    assert [] + Collected(data) == Collected(data);
    TerminatorEnds(k3, st, at3);
    hide TerminatorBytes;
    FourParts(k, DCS, header, data, t, at);
    NoneBefore(Locate(k3, t, at3));
  }

  lemma NoneBefore(ls: seq<Located>)
    ensures [] + ([] + ([] + ls)) == ls
  {
  }

  lemma PieceIsLocated(k: Tracker, p: Piece, at: nat)
    requires Idle(k.core) && Good(p)
    ensures Idle(TrackAll(k, Render(p), at).core)
    ensures Locate(k, Render(p), at) ==
            if Says(p).Some? then [Located(Some(at), at + |Render(p)|, Says(p).value)] else []
  {
    hide TrackAll, Locate, ParseBody, Endless, Within, Collected;
    match p
    case Plain(text) => TextIsSilent(k, text, at);
    case Styled(text) => StyledIsSilent(k, text, at);
    case Frame(body, st) =>
      Introducer(k, at);
      OurHeader(TrackAll(k, DCS, at), at + 2);
      ControlString(k, OURS, body, st, at);
      assert Render(p) == DCS + (OURS + (body + TerminatorBytes(st)));
    case Device(marker, params, inters, final, data, st) =>
      var header := marker + (params + inters + [final]);
      Introducer(k, at);
      DeviceHeader(TrackAll(k, DCS, at), marker, params, inters, final, at + 2);
      ControlString(k, header, data, st, at);
      assert Render(p) == DCS + (header + (data + TerminatorBytes(st)));
  }

  lemma RenderEndsClean(p: Piece)
    requires Good(p)
    ensures !EndsOpen(Render(p))
  {
    if p.Styled? { EscLeavesGround(START, p.text); }
  }

  lemma {:induction false} EscLeavesGround(c: Core, bs: seq<byte>)
    ensures EndsOpen(bs) ==> !Idle(Run(c, bs))
    decreases |bs|
  {
    if |bs| == 1 {
      assert bs[1..] == [];
    } else if |bs| > 1 {
      EscLeavesGround(Step(c, bs[0]), bs[1..]);
    }
  }

  /** The sniffer finds exactly the reference list, wherever the stream of pieces begins. */
  lemma {:induction false} StreamIsLocated(k: Tracker, ps: seq<Piece>, at: nat)
    requires Idle(k.core) && AllGood(ps)
    ensures Locate(k, RenderAll(ps), at) == Expected(ps, at)
    ensures Idle(TrackAll(k, RenderAll(ps), at).core)
    decreases |ps|
  {
    hide TrackAll, Locate, Render, Good, Idle, Says, EndsOpen;
    if |ps| == 0 {
      FeedNothing(k, at);
    } else {
      var first, rest := Render(ps[0]), RenderAll(ps[1..]);
      PieceIsLocated(k, ps[0], at);
      RenderEndsClean(ps[0]);
      LocatingConcatenates(k, first, rest, at);
      StreamIsLocated(TrackAll(k, first, at), ps[1..], at + |first|);
    }
  }

  // ---- round trip ----

  /** Text, or a shell message on the wire. */
  datatype Item = Text(text: seq<byte>) | Message(message: WirePrinter.Message, st: Terminator)

  function Put(i: Item): Piece {
    if i.Text? then Styled(i.text) else Frame(HexEncode(Payload(i.message)), i.st)
  }

  function PutAll(items: seq<Item>): seq<Piece> {
    if |items| == 0 then [] else [Put(items[0])] + PutAll(items[1..])
  }

  predicate AllUnheard(items: seq<Item>) {
    |items| == 0 || ((items[0].Text? ==> Unheard(items[0].text)) && AllUnheard(items[1..]))
  }

  function HeardAll(items: seq<Item>): seq<DcsEvent> {
    if |items| == 0 then []
    else (if items[0].Message? then One(Heard(items[0].message)) else []) + HeardAll(items[1..])
  }

  lemma PutIsGood(i: Item)
    requires i.Text? ==> Unheard(i.text)
    ensures Good(Put(i))
    ensures Says(Put(i)) == if i.Message? then Heard(i.message) else None
  {
    if i.Message? {
      MessageIsHeard(i.message);
      hide Heard, Payload, HexEncode, ParseBody;
      PrintableIsCollected(HexEncode(Payload(i.message)));
    }
  }

  lemma FirstItem(items: seq<Item>)
    requires |items| > 0
    ensures PutAll(items) == [Put(items[0])] + PutAll(items[1..])
    ensures HeardAll(items) ==
            (if items[0].Message? then One(Heard(items[0].message)) else []) + HeardAll(items[1..])
    ensures AllUnheard(items) ==> (items[0].Text? ==> Unheard(items[0].text)) && AllUnheard(items[1..])
  {
    hide Put, Heard, Unheard;
  }

  lemma FirstPiece(p: Piece, ps: seq<Piece>, at: nat)
    ensures AllGood([p] + ps) == (Good(p) && AllGood(ps))
    ensures EventOf(Expected([p] + ps, at)) == One(Says(p)) + EventOf(Expected(ps, at + |Render(p)|))
  {
    hide Good, Render, Says;
    assert ([p] + ps)[1..] == ps;
    var rest := Expected(ps, at + |Render(p)|);
    assert Expected([p] + ps, at) ==
           (if Says(p).Some? then [Located(Some(at), at + |Render(p)|, Says(p).value)] else []) + rest;
    hide Expected, AllGood;
    if Says(p).Some? {
      var l := Located(Some(at), at + |Render(p)|, Says(p).value);
      assert ([l] + rest)[1..] == rest;
    } else {
      assert [] + rest == rest;
    }
  }

  lemma {:induction false} ItemsAreExpected(items: seq<Item>, at: nat)
    requires AllUnheard(items)
    ensures AllGood(PutAll(items))
    ensures EventOf(Expected(PutAll(items), at)) == HeardAll(items)
    decreases |items|
  {
    if |items| > 0 {
      hide *;
      FirstItem(items);
      FirstPiece(Put(items[0]), PutAll(items[1..]), at);
      PutIsGood(items[0]);
      ItemsAreExpected(items[1..], at + |Render(Put(items[0]))|);
      OneNothing<DcsEvent>();
    }
  }

  lemma OneNothing<T>()
    ensures One<T>(None) == []
  {
  }

  /** WIRE ROUND TRIP. Print any messages, put any text with whole escape sequences between them, end each frame either
    way, and cut the stream anywhere, also inside a frame or a terminator: the sniffer queues exactly what was said. */
  lemma WireRoundTrip(items: seq<Item>, chunks: seq<seq<byte>>)
    requires AllUnheard(items)
    requires Flatten(chunks) == RenderAll(PutAll(items))
    ensures ChunkEvents(START, chunks) == HeardAll(items)
    ensures Idle(RunChunks(START, chunks))
  {
    var k := Tracker(START, None, None);
    TrackingRuns(k, RenderAll(PutAll(items)), 0);
    ItemsAreExpected(items, 0);
    StreamIsLocated(k, PutAll(items), 0);
    LocatedEventsAreTheEvents(k, RenderAll(PutAll(items)), 0);
    CutsAreInvisible(START, chunks);
  }
}
