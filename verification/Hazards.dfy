/** Cuts on which the feed stops, and exactly when they do. */
module Hazards {
  import opened Bytes
  import opened Vte
  import opened Wire
  import opened Sniffer
  import opened Grid
  import opened Stream
  import opened TerminalModel
  import opened Runs

  // ---- a frame that spans two calls ----

  lemma {:induction false} CollectingConcatenates(a: seq<byte>, b: seq<byte>)
    ensures Collected(a + b) == Collected(a) + Collected(b)
  {
    if |a| == 0 {
      assert a + b == b;
    } else {
      assert (a + b)[1..] == a[1..] + b;
      CollectingConcatenates(a[1..], b);
      Associate(if a[0] < 0x7F then [a[0]] else [], Collected(a[1..]), Collected(b));
    }
  }

  lemma CompletesOne(c: Core, b: byte, rest: seq<byte>)
    requires c.isOurs && c.parser.state == DcsPassthrough && Endless([b])
    ensures Completes(c, [b] + rest) == Completes(c.(buf := c.buf + if b < 0x7F then [b] else []), rest)
  {
    hide ParseBody;
    assert [b][0] == b && ([b] + rest)[1..] == rest && c.buf + [] == c.buf;
    assert Step(c, b) == c.(buf := c.buf + if b < 0x7F then [b] else []) && Emit(c, b).None?;
  }

  lemma {:induction false} DataCompletes(c: Core, body: seq<byte>, rest: seq<byte>)
    requires c.isOurs && c.parser.state == DcsPassthrough && Endless(body)
    ensures Completes(c, body + rest) == Completes(c.(buf := c.buf + Collected(body)), rest)
    decreases |body|
  {
    hide Completes;
    if |body| == 0 {
      assert body + rest == rest && c.buf + Collected(body) == c.buf;
    } else {
      var head: seq<byte> := if body[0] < 0x7F then [body[0]] else [];
      assert body + rest == [body[0]] + (body[1..] + rest);
      CompletesOne(c, body[0], body[1..] + rest);
      DataCompletes(c.(buf := c.buf + head), body[1..], rest);
      Associate(c.buf, head, Collected(body[1..]));
    }
  }

  lemma TerminatorCompletes(c: Core, st: Terminator, more: seq<byte>)
    requires c.isOurs && c.parser.state == DcsPassthrough && ParseBody(c.buf).Some?
    ensures Completes(c, TerminatorBytes(st) + more)
  {
    hide ParseBody;
    var b := (TerminatorBytes(st) + more)[0];
    assert Emit(c, b) == ParseBody(c.buf);
  }

  /** A frame of ours in progress: its header and some of its body were read. */
  function Reading(body: seq<byte>): Core {
    Core(Parser(DcsPassthrough, [DCS_INTERMEDIATE]), true, Collected(body))
  }

  lemma HeaderIsRead(k: Tracker, at: nat)
    requires Idle(k.core)
    ensures TrackAll(k, DCS + OURS, at) == Tracker(Reading([]), None, Some(at)) && Locate(k, DCS + OURS, at) == []
  {
    assert !EndsOpen(DCS);
    hide TrackAll, Locate, Idle, EndsOpen;
    Introducer(k, at);
    OurHeader(TrackAll(k, DCS, at), at + 2);
    LocatingConcatenates(k, DCS, OURS, at);
  }

  lemma BodyIsRead(k: Tracker, read: seq<byte>, body: seq<byte>, at: nat)
    requires k.core == Reading(read) && Endless(body)
    ensures TrackAll(k, body, at) == k.(core := Reading(read + body)) && Locate(k, body, at) == []
  {
    hide TrackAll, Locate, Collected;
    DataIsCollected(k, body, at);
    CollectingConcatenates(read, body);
  }

  /** Text, then a frame of ours cut inside its body. */
  lemma FrameIsOpen(k: Tracker, text: seq<byte>, body: seq<byte>)
    requires Idle(k.core) && Unheard(text) && Endless(body)
    ensures var front := text + ((DCS + OURS) + body);
            TrackAll(k, front, 0) == Tracker(Reading(body), None, Some(|text|)) && Locate(k, front, 0) == []
  {
    FrontIsClosed(k, text);
    assert !EndsOpen(DCS + OURS) && [] + body == body;
    hide TrackAll, Locate, Idle, EndsOpen, Unheard, Endless, Reading;
    var k1 := TrackAll(k, text, 0);
    StyledIsSilent(k, text, 0);
    HeaderIsRead(k1, |text|);
    BodyIsRead(TrackAll(k1, DCS + OURS, |text|), [], body, |text| + 4);
    LocatingConcatenates(k1, DCS + OURS, body, |text|);
    LocatingConcatenates(k, text, (DCS + OURS) + body, 0);
  }

  lemma FrontIsClosed(k: Tracker, text: seq<byte>)
    requires Unheard(text)
    ensures !EndsOpen(text)
  {
    RenderEndsClean(Styled(text));
  }

  /** A FRAME ACROSS CALLS PANICS, EXACTLY WHEN. From any terminal between escape sequences: text, then a valid frame
    cut anywhere in its body, ended in either form or by an abort. The feed that completes it stops exactly when the
    text was longer than that feed's whole input. */
  lemma FrameAcrossCallsPanicsExactlyWhen(em: Emulator, t: TermState, text: seq<byte>, front: seq<byte>,
                                          back: seq<byte>,
                                          st: Terminator, more: seq<byte>, n0: nat, n1: nat)
    requires Idle(t.core) && Unheard(text) && Endless(front) && Endless(back)
    requires ParseBody(Collected(front + back)).Some?
    ensures var first := TerminalModel.Feed(em, t, text + ((DCS + OURS) + front), n0);
            var rest := back + (TerminatorBytes(st) + more);
            && first.Fed?
            && (TerminalModel.Feed(em, first.state, rest, n1).Panicked? <==> |text| > |rest|)
  {
    hide *;
    var k := Tracker(t.core, None, t.frameStart);
    var input := text + ((DCS + OURS) + front);
    var rest := TerminatorBytes(st) + more;
    IdleIsSane(t.core);
    FrameIsOpen(k, text, front);
    FeedPanicsExactlyWhen(em, t, input, n0);
    var t1 := FeedIs(em, t, input, n0);
    WalkKeepsCore(em, t1, input, 0, Locate(k, input, 0), n0);
    SameCoreIs(t1, TerminalModel.Feed(em, t, input, n0).state);
    TrackingRuns(k, input, 0);
    var u := TerminalModel.Feed(em, t, input, n0).state;
    ReadingIs(front);
    FeedPanicsExactlyWhen(em, u, back + rest, n1);
    DataCompletes(u.core, back, rest);
    CollectingConcatenates(front, back);
    TerminatorCompletes(u.core.(buf := u.core.buf + Collected(back)), st, more);
  }

  lemma SameCoreIs(t: TermState, u: TermState)
    ensures SameCore(u, t) ==> u.core == t.core && u.frameStart == t.frameStart
  {
  }

  lemma IdleIsSane(c: Core)
    requires Idle(c)
    ensures Sane(c) && !c.isOurs
  {
  }

  lemma ReadingIs(body: seq<byte>)
    ensures var c := Reading(body);
            c.isOurs && c.parser.state == DcsPassthrough && c.buf == Collected(body) && Sane(c)
  {
  }
}
