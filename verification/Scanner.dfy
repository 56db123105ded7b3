/** The stateless frame scanner, and its agreement with the stateful sniffer. */
module Scanner {
  import opened Bytes
  import opened Vte
  import opened Wire
  import opened Sniffer
  import opened Stream

  datatype LocatedDcsEvent = LocatedDcsEvent(start: nat, endExclusive: nat, event: DcsEvent)

  /** A string terminator begins at `i`. */
  predicate TerminatorAt(s: seq<byte>, i: nat) {
    i < |s| && (s[i] == ST8 || (s[i] == ESC && i + 1 < |s| && s[i + 1] == BACKSLASH))
  }

  function FindTerminator(s: seq<byte>, i: nat): (r: Option<nat>)
    ensures r.Some? ==> i <= r.value && TerminatorAt(s, r.value)
    ensures r.Some? ==> forall j :: i <= j < r.value ==> !TerminatorAt(s, j)
    ensures r.None? ==> forall j :: i <= j ==> !TerminatorAt(s, j)
    decreases |s| - i
  {
    if i >= |s| then None else if TerminatorAt(s, i) then Some(i) else FindTerminator(s, i + 1)
  }

  function AfterTerminator(s: seq<byte>, i: nat): (r: nat)
    requires TerminatorAt(s, i)
    ensures i < r <= |s|
  {
    if s[i] == ST8 then i + 1 else i + 2
  }

  function Found(body: seq<byte>, start: nat, end: nat): seq<LocatedDcsEvent> {
    match ParseBody(body)
    case None => []
    case Some(event) => [LocatedDcsEvent(start, end, event)]
  }

  /** What scanning yields from the suffix `s`, which begins at offset `at`. */
  function Scan(s: seq<byte>, at: nat): seq<LocatedDcsEvent>
    decreases |s|
  {
    if |s| < 4 then []
    else if s[..2] != DCS then Scan(s[1..], at + 1)
    else if s[2..4] != OURS then
      match FindTerminator(s, 2)
      case None => []
      case Some(i) => var next := AfterTerminator(s, i); Scan(s[next..], at + next)
    else
      match FindTerminator(s, 4)
      case None => []
      case Some(i) =>
        var next := AfterTerminator(s, i);
        Found(s[4..i], at, at + next) + Scan(s[next..], at + next)
  }

  method FindSt(bytes: seq<byte>) returns (r: Option<nat>)
    ensures r == FindTerminator(bytes, 0)
  {
    var i := 0;
    while i < |bytes|
      invariant i <= |bytes|
      invariant FindTerminator(bytes, i) == FindTerminator(bytes, 0)
    {
      if bytes[i] == ST8 { return Some(i); }
      if bytes[i] == ESC && i + 1 < |bytes| && bytes[i + 1] == BACKSLASH { return Some(i); }
      i := i + 1;
    }
    r := None;
  }

  lemma FindTerminatorSuffix(s: seq<byte>, n: nat)
    requires n <= |s|
    ensures FindTerminator(s, n) ==
            match FindTerminator(s[n..], 0) { case None => None case Some(i) => Some(n + i) }
  {
    var here, there := FindTerminator(s, n), FindTerminator(s[n..], 0);
    if there.Some? { assert TerminatorAt(s, n + there.value); }
    if here.Some? { assert TerminatorAt(s[n..], here.value - n); }
  }

  lemma ScanText(bytes: seq<byte>, i: nat)
    requires i + 4 <= |bytes| && (bytes[i] != ESC || bytes[i + 1] != 0x50)
    ensures Scan(bytes[i..], i) == Scan(bytes[i + 1..], i + 1)
  {
    var s := bytes[i..];
    assert s[..2][0] == bytes[i] && s[..2][1] == bytes[i + 1];
    assert s[1..] == bytes[i + 1..];
  }

  /** Past the terminator found `skip` bytes or more behind `i`. */
  function Past(bytes: seq<byte>, i: nat, skip: nat): Option<nat>
    requires i + skip <= |bytes|
  {
    match FindTerminator(bytes[i + skip..], 0)
    case None => None
    case Some(rel) => Some(AfterTerminator(bytes[i + skip..], rel) + i + skip)
  }

  lemma PastBounds(bytes: seq<byte>, i: nat, skip: nat)
    requires i + skip <= |bytes|
    ensures Past(bytes, i, skip).Some? ==> i + skip < Past(bytes, i, skip).value <= |bytes|
    ensures match FindTerminator(bytes[i + skip..], 0)
            case None => Past(bytes, i, skip) == None
            case Some(rel) =>
              var at := i + skip + rel;
              at < |bytes| && Past(bytes, i, skip) == Some(if bytes[at] == ST8 then at + 1 else at + 2)
  {
  }

  lemma UnfoldScan(s: seq<byte>, at: nat)
    requires |s| >= 4 && s[0] == ESC && s[1] == 0x50
    ensures Scan(s, at) ==
            if s[2] != DCS_INTERMEDIATE || s[3] != DCS_FINAL then
              match FindTerminator(s, 2)
              case None => []
              case Some(i) => var next := AfterTerminator(s, i); Scan(s[next..], at + next)
            else
              match FindTerminator(s, 4)
              case None => []
              case Some(i) =>
                var next := AfterTerminator(s, i);
                Found(s[4..i], at, at + next) + Scan(s[next..], at + next)
  {
    hide Found, FindTerminator;
    assert s[..2] == DCS;
    assert s[2..4][0] == s[2] && s[2..4][1] == s[3];
    assert s[2] == DCS_INTERMEDIATE && s[3] == DCS_FINAL ==> s[2..4] == OURS;
  }

  lemma SameSuffix(bytes: seq<byte>, i: nat, skip: nat)
    requires i + skip <= |bytes|
    ensures bytes[i..][skip..] == bytes[i + skip..]
  {
  }

  lemma ScanForeign(bytes: seq<byte>, i: nat)
    requires i + 4 <= |bytes| && bytes[i] == ESC && bytes[i + 1] == 0x50
    requires bytes[i + 2] != DCS_INTERMEDIATE || bytes[i + 3] != DCS_FINAL
    ensures Past(bytes, i, 2).Some? ==> Past(bytes, i, 2).value <= |bytes|
    ensures Scan(bytes[i..], i) ==
            match Past(bytes, i, 2) { case None => [] case Some(next) => Scan(bytes[next..], next) }
  {
    hide Found, Scan, FindTerminator;
    var s := bytes[i..];
    SameSuffix(bytes, i, 2);
    UnfoldScan(s, i);
    FindTerminatorSuffix(s, 2);
    PastBounds(bytes, i, 2);
    if Past(bytes, i, 2).Some? { SameSuffix(bytes, i, Past(bytes, i, 2).value - i); }
  }

  lemma ScanOurs(bytes: seq<byte>, i: nat)
    requires i + 4 <= |bytes| && bytes[i] == ESC && bytes[i + 1] == 0x50
    requires bytes[i + 2] == DCS_INTERMEDIATE && bytes[i + 3] == DCS_FINAL
    ensures Past(bytes, i, 4).Some? ==> Past(bytes, i, 4).value <= |bytes|
    ensures Scan(bytes[i..], i) ==
            match Past(bytes, i, 4)
            case None => []
            case Some(next) =>
              var rel := FindTerminator(bytes[i + 4..], 0).value;
              Found(bytes[i + 4..i + 4 + rel], i, next) + Scan(bytes[next..], next)
  {
    hide Found, Scan, FindTerminator;
    var s := bytes[i..];
    SameSuffix(bytes, i, 4);
    UnfoldScan(s, i);
    FindTerminatorSuffix(s, 4);
    PastBounds(bytes, i, 4);
    if Past(bytes, i, 4).Some? {
      var next, rel := Past(bytes, i, 4).value, FindTerminator(bytes[i + 4..], 0).value;
      SameSuffix(bytes, i, next - i);
      assert s[4..4 + rel] == bytes[i + 4..i + 4 + rel];
    }
  }

  method ScanDcsEvents(bytes: seq<byte>) returns (out: seq<LocatedDcsEvent>)
    ensures out == Scan(bytes, 0)
  {
    hide Found, Scan, FindTerminator, TerminatorAt, Past, AfterTerminator, ParseBody;
    out := [];
    var i := 0;
    assert bytes[0..] == bytes;
    ScanEnds(bytes, 0);
    while i + 4 <= |bytes|
      invariant 0 <= i <= |bytes|
      invariant out + Scan(bytes[i..], i) == Scan(bytes, 0)
      decreases |bytes| - i
    {
      if bytes[i] != ESC || bytes[i + 1] != 0x50 {
        ScanText(bytes, i);
        i := i + 1;
        continue;
      }
      if bytes[i + 2] != DCS_INTERMEDIATE || bytes[i + 3] != DCS_FINAL {
        ScanForeign(bytes, i);
        PastBounds(bytes, i, 2);
        var rel := FindSt(bytes[i + 2..]);
        if rel.None? { return; }
        var at := i + 2 + rel.value;
        i := if bytes[at] == ST8 then at + 1 else at + 2;
        continue;
      }
      ScanOurs(bytes, i);
      PastBounds(bytes, i, 4);
      var rel := FindSt(bytes[i + 4..]);
      if rel.None? { return; }
      var bodyEnd := i + 4 + rel.value;
      var frameEnd := if bytes[bodyEnd] == ST8 then bodyEnd + 1 else bodyEnd + 2;
      var body := bytes[i + 4..bodyEnd];
      var event := ParseFrameBody(body);
      Associate(out, Found(body, i, frameEnd), Scan(bytes[frameEnd..], frameEnd));
      FoundIs(body, i, frameEnd);
      if event.Some? {
        out := out + [LocatedDcsEvent(i, frameEnd, event.value)];
      }
      i := frameEnd;
    }
    ScanEnds(bytes, i);
  }

  lemma ScanEnds(bytes: seq<byte>, i: nat)
    requires i <= |bytes|
    ensures i + 4 > |bytes| ==> Scan(bytes[i..], i) == []
  {
  }

  lemma FoundIs(body: seq<byte>, start: nat, end: nat)
    ensures Found(body, start, end) ==
            if ParseBody(body).Some? then [LocatedDcsEvent(start, end, ParseBody(body).value)] else []
  {
  }

  // ---- agreement ----

  /** The scanner's answer in the sniffer's terms. */
  function AsLocated(fs: seq<LocatedDcsEvent>): seq<Located> {
    if |fs| == 0 then []
    else [Located(Some(fs[0].start), fs[0].endExclusive, fs[0].event)] + AsLocated(fs[1..])
  }

  lemma {:induction false} TextIsSkipped(text: seq<byte>, rest: seq<byte>, at: nat)
    requires EscFree(text)
    ensures Scan(text + rest, at) == Scan(rest, at + |text|)
    decreases |text|
  {
    var s := text + rest;
    if |text| == 0 {
      assert s == rest;
    } else if |s| >= 4 {
      assert s[..2][0] == text[0];
      assert s[1..] == text[1..] + rest;
      TextIsSkipped(text[1..], rest, at + 1);
    }
  }

  lemma TerminatorIsFound(s: seq<byte>, from: nat, i: nat)
    requires from <= i && TerminatorAt(s, i) && forall j :: from <= j < i ==> s[j] != ESC && s[j] != ST8
    ensures FindTerminator(s, from) == Some(i)
  {
  }

  /** A control string that ends in a string terminator, rather than by an abort. */
  predicate Terminated(p: Piece) {
    (p.Frame? || p.Device?) && (p.st == EightBit || p.st == SevenBit)
  }

  lemma EndlessJoins(a: seq<byte>, b: seq<byte>)
    requires Endless(a) && Endless(b)
    ensures Endless(a + b)
  {
  }

  lemma WithinIsEndless(s: seq<byte>, low: int, high: int)
    requires Within(s, low, high) && 0x20 <= low && high <= 0x7E
    ensures Endless(s)
  {
  }

  /** Where a device control string differs from the introducer of a bare frame. */
  lemma DeviceBegins(p: Piece)
    requires Good(p) && p.Device?
    ensures Endless(HeaderBytes(p)) && |HeaderBytes(p)| >= 1
    ensures |HeaderBytes(p)| == 1 || HeaderBytes(p)[0] != DCS_INTERMEDIATE || HeaderBytes(p)[1] != DCS_FINAL
    ensures |HeaderBytes(p)| == 1 ==> HeaderBytes(p)[0] >= 0x40
  {
    var front, back := p.marker + p.params, p.inters + [p.final];
    assert HeaderBytes(p) == front + back;
    WithinIsEndless(p.marker, 0x3C, 0x3F);
    WithinIsEndless(p.params, 0x30, 0x3B);
    WithinIsEndless(p.inters, 0x20, 0x2F);
    EndlessJoins(p.marker, p.params);
    EndlessJoins(p.inters, [p.final]);
    EndlessJoins(front, back);
    hide Endless;
    if front == [] {
      assert front + back == back;
      if |p.inters| == 1 { assert p.inters == [p.inters[0]]; }
    } else {
      assert (front + back)[0] == front[0] == if |p.marker| > 0 then p.marker[0] else p.params[0];
    }
  }

  lemma InnerIsEndless(p: Piece)
    requires Good(p) && (p.Frame? || p.Device?)
    ensures Endless(Inner(p)) && |Inner(p)| >= 1
    ensures p.Frame? ==> Inner(p)[0] == DCS_INTERMEDIATE && |Inner(p)| >= 2 && Inner(p)[1] == DCS_FINAL
                         && Inner(p)[2..] == p.body
    ensures p.Device? ==> |Inner(p)| == 1 || Inner(p)[0] != DCS_INTERMEDIATE || Inner(p)[1] != DCS_FINAL
  {
    if p.Device? {
      DeviceBegins(p);
      EndlessJoins(HeaderBytes(p), p.data);
      hide Endless, Good, HeaderBytes;
      assert Inner(p)[0] == HeaderBytes(p)[0];
      assert |HeaderBytes(p)| > 1 ==> Inner(p)[1] == HeaderBytes(p)[1];
    } else {
      EndlessJoins(OURS, p.body);
      hide Endless;
    }
  }

  lemma Layout(inner: seq<byte>, t: seq<byte>, rest: seq<byte>)
    requires |inner| >= 1 && |t| >= 1
    ensures var head := DCS + inner + t; var s := head + rest; var i := 2 + |inner|;
            && |s| >= 4 && s[0] == ESC && s[1] == 0x50 && s[2..i] == inner && s[i] == t[0] && s[|head|..] == rest
            && (|t| > 1 ==> s[i + 1] == t[1])
            && s[2] == inner[0]
            && (forall j :: 2 <= j < i ==> s[j] == inner[j - 2])
            && (|inner| > 1 ==> s[3] == inner[1] && s[4..i] == inner[2..])
            && (|inner| == 1 ==> s[3] == t[0])
  {
    var s := DCS + inner + t + rest;
    assert forall j :: 0 <= j < |inner| ==> s[2 + j] == inner[j];
  }

  lemma TerminatorBegins(p: Piece, s: seq<byte>, i: nat)
    requires Terminated(p) && i + |TerminatorBytes(p.st)| <= |s|
    requires s[i] == TerminatorBytes(p.st)[0] && (|TerminatorBytes(p.st)| > 1 ==> s[i + 1] == TerminatorBytes(p.st)[1])
    ensures TerminatorAt(s, i) && AfterTerminator(s, i) == i + |TerminatorBytes(p.st)|
  {
  }

  lemma ControlStringIsScanned(p: Piece, rest: seq<byte>, at: nat)
    requires Good(p) && Terminated(p)
    ensures var end := at + |Render(p)|; var event := if p.Frame? then ParseBody(p.body) else None;
            Scan(Render(p) + rest, at) ==
            (if event.Some? then [LocatedDcsEvent(at, end, event.value)] else []) + Scan(rest, end)
  {
    hide Good, Scan, ParseBody, TerminatorAt, AfterTerminator, TerminatorBytes;
    var t := TerminatorBytes(p.st);
    var s := Render(p) + rest;
    var i := 2 + |Inner(p)|;
    TerminatorIsSome(p.st);
    InnerIsEndless(p);
    Layout(Inner(p), t, rest);
    TerminatorBegins(p, s, i);
    UnfoldScan(s, at);
    if p.Frame? {
      TerminatorIsFound(s, 4, i);
      FoundIs(p.body, at, at + |Render(p)|);
    } else {
      TerminatorIsFound(s, 2, i);
      assert [] + Scan(rest, at + |Render(p)|) == Scan(rest, at + |Render(p)|);
    }
  }

  lemma TerminatorIsSome(st: Terminator)
    ensures 1 <= |TerminatorBytes(st)| <= 2
    ensures st == Cancel || st == Substitute ==>
              TerminatorBytes(st) == [TerminatorBytes(st)[0]] && Spoils(TerminatorBytes(st)[0])
  {
  }

  // ---- behind an aborted string ----

  /** A byte that is neither a hex digit nor part of a terminator. */
  predicate Spoils(b: byte) {
    Nibble(b).None? && b != ESC && b != ST8
  }

  /** The scanner is looking for a terminator: what it yields from the one it finds on. */
  function Resume(s: seq<byte>, at: nat): seq<LocatedDcsEvent> {
    match FindTerminator(s, 0)
    case None => []
    case Some(i) => Scan(s[AfterTerminator(s, i)..], at + AfterTerminator(s, i))
  }

  lemma FindBehind(front: seq<byte>, back: seq<byte>)
    requires forall j :: 0 <= j < |front| ==> front[j] != ESC && front[j] != ST8
    ensures FindTerminator(front + back, 0) ==
            match FindTerminator(back, 0) { case None => None case Some(i) => Some(|front| + i) }
  {
    var s := front + back;
    assert s[|front|..] == back;
    FindTerminatorSuffix(s, |front|);
    var found := FindTerminator(s, 0);
    assert forall j :: 0 <= j < |front| ==> s[j] == front[j];
    if found.Some? { assert TerminatorAt(s, found.value); }
  }

  lemma ResumeBehind(front: seq<byte>, back: seq<byte>, at: nat)
    requires forall j :: 0 <= j < |front| ==> front[j] != ESC && front[j] != ST8
    ensures Resume(front + back, at) == Resume(back, at + |front|)
  {
    hide Scan, FindTerminator;
    FindBehind(front, back);
    var s, found := front + back, FindTerminator(back, 0);
    if found.Some? {
      var i := found.value;
      assert s[|front| + i] == back[i];
      assert s[AfterTerminator(s, |front| + i)..] == back[AfterTerminator(back, i)..];
    }
  }

  /** A body with a foreign byte in it is no event. */
  lemma {:induction false} SpoiltBody(body: seq<byte>, j: nat)
    requires j < |body| && Nibble(body[j]).None?
    ensures HexDecode(body).None?
    decreases |body|
  {
    if |body| >= 2 && j >= 2 { SpoiltBody(body[2..], j - 2); }
  }

  /** The parts of an aborted string behind the introducer and what the scanner skips. */
  lemma AbortedLayout(p: Piece, rest: seq<byte>, skip: nat) returns (front: seq<byte>)
    requires Good(p) && (p.Frame? || p.Device?) && !Terminated(p) && skip == (if p.Frame? then 4 else 2)
    ensures var s := Render(p) + rest;
            && |s| >= 4 && s[0] == ESC && s[1] == 0x50
            && (p.Frame? <==> s[2] == DCS_INTERMEDIATE && s[3] == DCS_FINAL)
            && s[skip..] == front + rest && skip + |front| == |Render(p)|
    ensures |front| > 0 && Spoils(front[|front| - 1])
    ensures forall j :: 0 <= j < |front| ==> front[j] != ESC && front[j] != ST8
  {
    var inner, t := Inner(p), TerminatorBytes(p.st);
    InnerIsEndless(p);
    TerminatorIsSome(p.st);
    RenderIs(p);
    hide Good, Inner, Render;
    Layout(inner, t, rest);
    AbortedByOne(t);
    front := inner[skip - 2..] + t;
    CutFront(inner, t, rest, skip);
  }

  lemma RenderIs(p: Piece)
    requires p.Frame? || p.Device?
    ensures Render(p) == DCS + Inner(p) + TerminatorBytes(p.st)
  {
  }

  lemma AbortedByOne(t: seq<byte>)
    ensures |t| == 1 && Spoils(t[0]) ==> forall j :: 0 <= j < |t| ==> t[j] != ESC && t[j] != ST8
  {
  }

  lemma CutFront(inner: seq<byte>, t: seq<byte>, rest: seq<byte>, skip: nat)
    requires 2 <= skip <= 2 + |inner|
    ensures (DCS + inner + t + rest)[skip..] == (inner[skip - 2..] + t) + rest
  {
  }

  /** Past an aborted string the scanner goes on to the next terminator, and finds nothing on the way. */
  lemma AbortedIsScanned(p: Piece, rest: seq<byte>, at: nat)
    requires Good(p) && (p.Frame? || p.Device?) && !Terminated(p)
    ensures Scan(Render(p) + rest, at) == Resume(rest, at + |Render(p)|)
  {
    hide Good, Scan, ParseBody, FindTerminator, HexDecode, Nibble, Render, Spoils, Terminated, HeaderBytes, Body,
         TerminatorBytes, Found, Collected;
    var s, n := Render(p) + rest, |Render(p)|;
    var skip := if p.Frame? then 4 else 2;
    var front := AbortedLayout(p, rest, skip);
    UnfoldScan(s, at);
    FindTerminatorSuffix(s, skip);
    FindBehind(front, rest);
    var found := FindTerminator(rest, 0);
    if found.Some? {
      var i := n + found.value;
      assert s[i] == rest[found.value];
      var next := AfterTerminator(rest, found.value);
      assert AfterTerminator(s, i) == n + next && s[n + next..] == rest[next..];
      if p.Frame? {
        assert s[4..i][|front| - 1] == front[|front| - 1] by {
          assert s[4..i] == s[4..][..i - 4];
        }
        SpoilsIs(front[|front| - 1]);
        SpoiltBody(s[4..i], |front| - 1);
        FoundIs(s[4..i], at, at + n + next);
        NothingParsed(s[4..i]);
        assert [] + Scan(rest[next..], at + n + next) == Scan(rest[next..], at + n + next);
      }
    }
  }

  lemma SpoilsIs(b: byte)
    requires Spoils(b)
    ensures Nibble(b).None?
  {
  }

  lemma NothingParsed(body: seq<byte>)
    requires HexDecode(body).None?
    ensures ParseBody(body).None?
  {
  }

  lemma ControlLayout(p: Piece, rest: seq<byte>) returns (front: seq<byte>)
    requires Good(p) && (p.Frame? || p.Device?)
    ensures var t := TerminatorBytes(p.st);
            && Render(p) + rest == [ESC] + (front + (t + rest)) && |Render(p)| == 1 + |front| + |t|
            && |front| > 0 && front[0] != BACKSLASH
            && forall j :: 0 <= j < |front| ==> front[j] != ESC && front[j] != ST8
  {
    InnerIsEndless(p);
    RenderIs(p);
    hide Good, HeaderBytes, Body, Inner, Render, TerminatorBytes;
    var inner, t := Inner(p), TerminatorBytes(p.st);
    front := [0x50] + inner;
    Associate([ESC], front, t);
    Associate([ESC], front + t, rest);
    Associate(front, t, rest);
    assert DCS + inner == [ESC] + front;
  }

  /** Behind an aborted string a terminator closes the search, with or without a control string around it. */
  lemma ResumeAtControl(p: Piece, rest: seq<byte>, at: nat)
    requires Good(p) && (p.Frame? || p.Device?)
    ensures Resume(Render(p) + rest, at) ==
            if Terminated(p) then Scan(rest, at + |Render(p)|) else Resume(rest, at + |Render(p)|)
  {
    hide *;
    var t := TerminatorBytes(p.st);
    var front := ControlLayout(p, rest);
    assert (front + (t + rest))[0] == front[0];
    ResumePastEsc(front + (t + rest), at);
    ResumeBehind(front, t + rest, at + 1);
    ResumeAtEnd(p, rest, at + 1 + |front|);
  }

  lemma ResumeAtEnd(p: Piece, rest: seq<byte>, at: nat)
    requires p.Frame? || p.Device?
    ensures Resume(TerminatorBytes(p.st) + rest, at) ==
            if Terminated(p) then Scan(rest, at + |TerminatorBytes(p.st)|)
            else Resume(rest, at + |TerminatorBytes(p.st)|)
  {
    var t := TerminatorBytes(p.st);
    var s := t + rest;
    if Terminated(p) {
      assert TerminatorAt(s, 0) && AfterTerminator(s, 0) == |t| && s[|t|..] == rest;
      hide Scan;
    } else {
      TerminatorIsSome(p.st);
      hide Scan, FindTerminator, Resume;
      ResumeBehind(t, rest, at);
    }
  }

  lemma ResumePastEsc(s: seq<byte>, at: nat)
    requires |s| > 0 && s[0] != BACKSLASH
    ensures Resume([ESC] + s, at) == Resume(s, at + 1)
  {
    hide Scan, FindTerminator;
    var all := [ESC] + s;
    assert all[1..] == s;
    FindTerminatorSuffix(all, 1);
    var found := FindTerminator(all, 0);
    assert !TerminatorAt(all, 0);
    FindSkips(all);
    var there := FindTerminator(s, 0);
    if there.Some? {
      assert all[there.value + 1] == s[there.value];
      assert all[AfterTerminator(all, there.value + 1)..] == s[AfterTerminator(s, there.value)..];
    }
  }

  lemma FindSkips(s: seq<byte>)
    requires |s| > 0 && !TerminatorAt(s, 0)
    ensures FindTerminator(s, 0) == FindTerminator(s, 1)
  {
  }

  /** Behind an aborted string a raw 8-bit terminator in plain text closes the search. */
  lemma ResumeAtText(text: seq<byte>, rest: seq<byte>, at: nat)
    requires EscFree(text)
    ensures Resume(text + rest, at) ==
            if ST8 in text then Scan(rest, at + |text|) else Resume(rest, at + |text|)
  {
    hide Scan, FindTerminator;
    if ST8 in text {
      var i := FirstSt(text);
      var s := text + rest;
      assert TerminatorAt(s, i) && forall j :: 0 <= j < i ==> s[j] == text[j];
      TerminatorIsFound(s, 0, i);
      assert s[i + 1..] == text[i + 1..] + rest;
      TextIsSkipped(text[i + 1..], rest, at + i + 1);
    } else {
      ResumeBehind(text, rest, at);
    }
  }

  lemma {:induction false} FirstSt(text: seq<byte>) returns (i: nat)
    requires ST8 in text
    ensures i < |text| && text[i] == ST8 && forall j :: 0 <= j < i ==> text[j] != ST8
  {
    if text[0] == ST8 {
      i := 0;
    } else {
      assert ST8 in text[1..];
      i := FirstSt(text[1..]);
      i := i + 1;
    }
  }

  // ---- what the scanner yields ----

  lemma {:induction false} AsLocatedConcat(a: seq<LocatedDcsEvent>, b: seq<LocatedDcsEvent>)
    ensures AsLocated(a + b) == AsLocated(a) + AsLocated(b)
    decreases |a|
  {
    if |a| == 0 {
      assert a + b == b;
    } else {
      assert (a + b)[1..] == a[1..] + b;
      AsLocatedConcat(a[1..], b);
    }
  }

  /** No escape sequences other than control strings. */
  predicate AllBare(ps: seq<Piece>) {
    |ps| == 0 || (!ps[0].Styled? && AllBare(ps[1..]))
  }

  /** Is the scanner looking for a terminator behind this piece, given whether it was before? */
  function LostAfter(lost: bool, p: Piece): bool {
    if p.Frame? || p.Device? then !Terminated(p) else lost && ST8 !in p.text
  }

  /** The event the scanner finds in a piece. */
  function Seen(lost: bool, p: Piece): Option<DcsEvent> {
    if !lost && p.Frame? && Terminated(p) then ParseBody(p.body) else None
  }

  function ScanExpected(ps: seq<Piece>, at: nat, lost: bool): seq<Located>
    decreases |ps|
  {
    if |ps| == 0 then []
    else
      var end, event := at + |Render(ps[0])|, Seen(lost, ps[0]);
      (if event.Some? then [Located(Some(at), end, event.value)] else [])
      + ScanExpected(ps[1..], end, LostAfter(lost, ps[0]))
  }

  /** Scanning from here, or from the next terminator when an abort is behind. */
  function ScanFrom(s: seq<byte>, at: nat, lost: bool): seq<LocatedDcsEvent> {
    if lost then Resume(s, at) else Scan(s, at)
  }

  lemma PieceIsScanned(p: Piece, rest: seq<byte>, at: nat, lost: bool)
    requires Good(p) && !p.Styled?
    ensures var end, event := at + |Render(p)|, Seen(lost, p);
            ScanFrom(Render(p) + rest, at, lost) ==
            (if event.Some? then [LocatedDcsEvent(at, end, event.value)] else [])
            + ScanFrom(rest, end, LostAfter(lost, p))
  {
    hide Good, Scan, Resume, Render, ParseBody, Terminated;
    var after := ScanFrom(rest, at + |Render(p)|, LostAfter(lost, p));
    assert [] + after == after;
    if p.Plain? {
      TextIsPiece(p);
      if lost { ResumeAtText(p.text, rest, at); } else { TextIsSkipped(p.text, rest, at); }
    } else if lost {
      ResumeAtControl(p, rest, at);
    } else if Terminated(p) {
      ControlStringIsScanned(p, rest, at);
    } else {
      AbortedIsScanned(p, rest, at);
    }
  }

  lemma TextIsPiece(p: Piece)
    requires p.Plain? && Good(p)
    ensures EscFree(p.text) && Render(p) == p.text
  {
  }

  /** The scanner yields exactly the valid bodies of bare terminated frames that no abort keeps from it. */
  lemma {:induction false} StreamIsScanned(ps: seq<Piece>, at: nat, lost: bool)
    requires AllGood(ps) && AllBare(ps)
    ensures AsLocated(ScanFrom(RenderAll(ps), at, lost)) == ScanExpected(ps, at, lost)
    decreases |ps|
  {
    hide Good, Scan, Resume, Render, Seen, LostAfter, ScanFrom;
    if |ps| == 0 {
      NothingToScan(at, lost);
    } else {
      var p, rest := ps[0], RenderAll(ps[1..]);
      var end, event := at + |Render(p)|, Seen(lost, p);
      PieceIsScanned(p, rest, at, lost);
      StreamIsScanned(ps[1..], end, LostAfter(lost, p));
      var first := if event.Some? then [LocatedDcsEvent(at, end, event.value)] else [];
      AsLocatedConcat(first, ScanFrom(rest, end, LostAfter(lost, p)));
      assert event.Some? ==> first[1..] == [];
    }
  }

  lemma NothingToScan(at: nat, lost: bool)
    ensures ScanFrom([], at, lost) == []
  {
  }

  // ---- agreement ----

  /** The scanner hears what the sniffer hears: every piece with an event is a bare frame with a string terminator and a
    body of passed-on bytes, and is not behind an abort that no terminator has closed. */
  predicate HeardAlike(ps: seq<Piece>, lost: bool)
    decreases |ps|
  {
    |ps| == 0 ||
    ((Says(ps[0]).Some? ==> !lost && ps[0].Frame? && Terminated(ps[0]) && Collected(ps[0].body) == ps[0].body)
     && HeardAlike(ps[1..], LostAfter(lost, ps[0])))
  }

  /** Bytes that the parser drops are no hex digits: the scanner gives such a body up. */
  lemma {:induction false} DroppedBytesSpoil(body: seq<byte>)
    ensures ParseBody(body).Some? ==> Collected(body) == body
  {
    if exists j :: 0 <= j < |body| && body[j] >= 0x7F {
      var j :| 0 <= j < |body| && body[j] >= 0x7F;
      SpoiltBody(body, j);
    } else {
      CollectedWhole(body);
    }
  }

  lemma {:induction false} CollectedWhole(s: seq<byte>)
    requires forall j :: 0 <= j < |s| ==> s[j] < 0x7F
    ensures Collected(s) == s
  {
    if |s| > 0 {
      CollectedWhole(s[1..]);
      assert [s[0]] + s[1..] == s;
    }
  }

  lemma {:induction false} CollectedLess(s: seq<byte>)
    ensures |Collected(s)| <= |s|
    ensures Collected(s) != s ==> |Collected(s)| < |s|
  {
    if |s| > 0 {
      CollectedLess(s[1..]);
      assert [s[0]] + s[1..] == s;
    }
  }

  /** What the scanner sees in a piece the sniffer hears too. */
  lemma SeenIsHeard(lost: bool, p: Piece)
    ensures Seen(lost, p).Some? ==> Says(p) == Seen(lost, p)
    ensures (Says(p).Some? ==> !lost && p.Frame? && Terminated(p) && Collected(p.body) == p.body) <==>
            Seen(lost, p) == Says(p)
  {
    if p.Frame? { DroppedBytesSpoil(p.body); DroppedParse(p.body); }
    hide ParseBody, Collected;
  }

  /** If bytes are dropped from a body, at most the sniffer hears it. */
  lemma DroppedParse(body: seq<byte>)
    ensures Collected(body) != body ==> ParseBody(body).None?
  {
    DroppedBytesSpoil(body);
  }

  lemma {:induction false} ExpectedLengths(ps: seq<Piece>, at: nat, lost: bool)
    ensures |ScanExpected(ps, at, lost)| <= |Expected(ps, at)|
    ensures |ScanExpected(ps, at, lost)| == |Expected(ps, at)| ==> HeardAlike(ps, lost)
    ensures HeardAlike(ps, lost) ==> ScanExpected(ps, at, lost) == Expected(ps, at)
    decreases |ps|
  {
    if |ps| > 0 {
      SeenIsHeard(lost, ps[0]);
      hide Seen, Says, LostAfter, Render, Collected, Terminated;
      ExpectedLengths(ps[1..], at + |Render(ps[0])|, LostAfter(lost, ps[0]));
    }
  }

  /** AGREEMENT, EXACTLY. On any stream of ESC-free text, bare `$d` frames (malformed ones included) and other device
    control strings, however each ends, the stateless scanner and the stateful sniffer return the same events at the
    same places exactly when every valid frame is bare, ends in a string terminator, holds no byte the parser drops, and
    stands behind no abort that is still open. */
  lemma ScannerAgreesExactlyWhen(ps: seq<Piece>)
    requires AllGood(ps) && AllBare(ps)
    ensures AsLocated(Scan(RenderAll(ps), 0)) == Locate(Tracker(START, None, None), RenderAll(ps), 0)
            <==> HeardAlike(ps, false)
  {
    hide Scan, Locate, RenderAll, Expected, ScanExpected;
    assert ScanFrom(RenderAll(ps), 0, false) == Scan(RenderAll(ps), 0);
    StreamIsScanned(ps, 0, false);
    StreamIsLocated(Tracker(START, None, None), ps, 0);
    ExpectedLengths(ps, 0, false);
  }

  /** Every control string ends in a string terminator, frames hold printable bytes, and no other string is taken for a
    frame. */
  predicate AllTerminated(ps: seq<Piece>) {
    |ps| == 0 ||
    ((ps[0].Frame? || ps[0].Device? ==> Terminated(ps[0])) && (ps[0].Frame? ==> Printable(ps[0].body))
     && (ps[0].Device? ==> !Claimed(ps[0])) && AllTerminated(ps[1..]))
  }

  lemma {:induction false} TerminatedIsHeardAlike(ps: seq<Piece>)
    requires AllTerminated(ps) && AllBare(ps)
    ensures HeardAlike(ps, false)
  {
    if |ps| > 0 {
      if ps[0].Frame? { PrintableIsCollected(ps[0].body); }
      TerminatedIsHeardAlike(ps[1..]);
    }
  }

  /** AGREEMENT. On any stream of ESC-free text, bare `$d` frames with printable bodies (malformed ones included) and
    complete foreign control strings, the two return the same events at the same places. */
  lemma ScannerAgreesWithSniffer(ps: seq<Piece>)
    requires AllGood(ps) && AllBare(ps) && AllTerminated(ps)
    ensures AsLocated(Scan(RenderAll(ps), 0)) == Locate(Tracker(START, None, None), RenderAll(ps), 0)
  {
    TerminatedIsHeardAlike(ps);
    ScannerAgreesExactlyWhen(ps);
  }

  lemma OnePiece(p: Piece)
    requires Good(p) && !p.Styled?
    ensures AllGood([p]) && AllBare([p])
  {
    hide Good;
    assert [p][1..] == [];
  }

  /** A valid `$d` frame by itself that carries parameters, or is aborted, is heard by the sniffer alone. */
  lemma ParametersSeparateThem(params: seq<byte>, body: seq<byte>, st: Terminator)
    requires Within(params, 0x30, 0x3B) && Printable(body) && ParseBody(body).Some?
    ensures var p := if params == [] then Frame(body, st) else Device([], params, OURS[..1], DCS_FINAL, body, st);
            |Locate(Tracker(START, None, None), RenderAll([p]), 0)| == 1
            && (params != [] || st == Cancel || st == Substitute <==> AsLocated(Scan(RenderAll([p]), 0)) == [])
  {
    hide *;
    var p := Saying(params, body, st);
    SayingIs(params, body, st);
    OnePiece(p);
    StartIdles();
    StreamIsLocated(Tracker(START, None, None), [p], 0);
    StreamIsScanned([p], 0, false);
    OneExpected(p, params, body, st);
    FromHere(RenderAll([p]));
  }

  /** A valid frame, with parameters or without. */
  function Saying(params: seq<byte>, body: seq<byte>, st: Terminator): Piece {
    if params == [] then Frame(body, st) else Device([], params, OURS[..1], DCS_FINAL, body, st)
  }

  lemma StartIdles()
    ensures Idle(START)
  {
  }

  lemma FromHere(s: seq<byte>)
    ensures ScanFrom(s, 0, false) == Scan(s, 0)
  {
    hide Scan;
  }

  lemma SayingIs(params: seq<byte>, body: seq<byte>, st: Terminator)
    requires Within(params, 0x30, 0x3B) && Printable(body) && ParseBody(body).Some?
    ensures var p := Saying(params, body, st);
            && p == (if params == [] then Frame(body, st) else Device([], params, OURS[..1], DCS_FINAL, body, st))
            && Good(p) && !p.Styled? && Says(p) == ParseBody(body) && Collected(body) == body
  {
    hide ParseBody, Collected;
    PrintableIsCollected(body);
    assert OURS[..1] == [DCS_INTERMEDIATE];
  }

  lemma OneExpected(p: Piece, params: seq<byte>, body: seq<byte>, st: Terminator)
    requires p == Saying(params, body, st) && Says(p) == ParseBody(body) && ParseBody(body).Some?
    requires Collected(body) == body
    ensures |Expected([p], 0)| == 1
    ensures params != [] || st == Cancel || st == Substitute <==> ScanExpected([p], 0, false) == []
  {
    hide ParseBody, Collected, Render;
    assert [p][1..] == [];
    assert Expected([p], 0) == [Located(Some(0), |Render(p)|, ParseBody(body).value)] + Expected([], |Render(p)|);
    SeenIsHeard(false, p);
  }
}
