/** Standard base64 (RFC 4648 section 4), as the connect form encodes and decodes private keys. */
module Base64 {
  import opened Bytes

  const PAD: byte := 0x3D

  /** The alphabet. */
  function Digit(v: nat): (c: byte)
    requires v < 64
    ensures c != PAD && !IsSpace(c) && Value(c) == Some(v)
  {
    if v < 26 then 0x41 + v else if v < 52 then 0x61 + (v - 26) else if v < 62 then 0x30 + (v - 52)
    else if v == 62 then 0x2B else 0x2F
  }

  function Value(c: byte): (r: Option<nat>)
    ensures r.Some? ==> r.value < 64
  {
    if 0x41 <= c <= 0x5A then Some(c - 0x41)
    else if 0x61 <= c <= 0x7A then Some(c - 0x61 + 26)
    else if 0x30 <= c <= 0x39 then Some(c - 0x30 + 52)
    else if c == 0x2B then Some(62)
    else if c == 0x2F then Some(63)
    else None
  }

  predicate IsSpace(c: byte) {
    c == 0x20 || c == 0x09 || c == 0x0A || c == 0x0C || c == 0x0D
  }

  // ---- encoding ----

  function Group(n: nat): (s: seq<byte>)
    requires n < 0x100_0000
    ensures |s| == 4
  {
    [Digit(n / 0x4_0000), Digit(n / 0x1000 % 64), Digit(n / 64 % 64), Digit(n % 64)]
  }

  /** Three bytes as one number. */
  function Word(x: byte, y: byte, z: byte): (n: nat)
    ensures n < 0x100_0000
  {
    var a: nat, b: nat, c: nat := x, y, z;
    a * 0x1_0000 + b * 0x100 + c
  }

  function Encode(bytes: seq<byte>): seq<byte>
    decreases |bytes|
  {
    if |bytes| >= 3 then Group(Word(bytes[0], bytes[1], bytes[2])) + Encode(bytes[3..])
    else if |bytes| == 2 then Group(Word(bytes[0], bytes[1], 0))[..3] + [PAD]
    else if |bytes| == 1 then Group(Word(bytes[0], 0, 0))[..2] + [PAD, PAD]
    else []
  }

  lemma EncodeStep(bytes: seq<byte>, i: nat, out: seq<byte>)
    requires i <= |bytes|
    ensures var s := bytes[i..];
            && (|s| >= 3 ==> out + Encode(s) == (out + Group(Word(s[0], s[1], s[2]))) + Encode(bytes[i + 3..]))
            && (|s| == 2 ==> Encode(s) == Group(Word(s[0], s[1], 0))[..3] + [PAD])
            && (|s| == 1 ==> Encode(s) == Group(Word(s[0], 0, 0))[..2] + [PAD, PAD])
            && (|s| == 0 ==> Encode(s) == [])
  {
    hide Group, Word;
    var s := bytes[i..];
    if |s| >= 3 {
      assert s[3..] == bytes[i + 3..];
      assert out + (Group(Word(s[0], s[1], s[2])) + Encode(s[3..])) ==
             (out + Group(Word(s[0], s[1], s[2]))) + Encode(s[3..]);
    }
  }

  method EncodeBytes(bytes: seq<byte>) returns (out: seq<byte>)
    ensures out == Encode(bytes)
  {
    hide Digit, Word, Encode;
    out := [];
    var i := 0;
    assert bytes[0..] == bytes;
    while i + 3 <= |bytes|
      invariant 0 <= i <= |bytes|
      invariant out + Encode(bytes[i..]) == Encode(bytes)
    {
      EncodeStep(bytes, i, out);
      var n := Word(bytes[i], bytes[i + 1], bytes[i + 2]);
      out := out + [Digit(n / 0x4_0000), Digit(n / 0x1000 % 64), Digit(n / 64 % 64), Digit(n % 64)];
      i := i + 3;
    }
    EncodeStep(bytes, i, out);
    var rem := |bytes| - i;
    if rem == 1 {
      var n := Word(bytes[i], 0, 0);
      out := out + [Digit(n / 0x4_0000), Digit(n / 0x1000 % 64), PAD, PAD];
    } else if rem == 2 {
      var n := Word(bytes[i], bytes[i + 1], 0);
      out := out + [Digit(n / 0x4_0000), Digit(n / 0x1000 % 64), Digit(n / 64 % 64), PAD];
    }
  }

  // ---- decoding ----

  function Clean(s: seq<byte>): seq<byte> {
    if |s| == 0 then [] else (if IsSpace(s[0]) then [] else [s[0]]) + Clean(s[1..])
  }

  function Padding(s: seq<byte>): (n: nat)
    ensures n <= |s|
  {
    if |s| > 0 && s[|s| - 1] == PAD then 1 + Padding(s[..|s| - 1]) else 0
  }

  function ValueOrPad(c: byte): (r: Option<nat>)
    ensures r.Some? ==> r.value < 64
  {
    if c == PAD then Some(0) else Value(c)
  }

  /** One to three bytes from four characters; the pad characters are looked at one by one. */
  function Ungroup(s: seq<byte>): Option<seq<byte>>
    requires |s| == 4
  {
    match (Value(s[0]), Value(s[1]), ValueOrPad(s[2]), ValueOrPad(s[3]))
    case (Some(a), Some(b), Some(c), Some(d)) =>
      Some([a * 4 + b / 16] + (if s[2] != PAD then [b % 16 * 16 + c / 4] else [])
           + (if s[3] != PAD then [c % 4 * 64 + d] else []))
    case _ => None
  }

  function DecodeGroups(s: seq<byte>): Option<seq<byte>>
    decreases |s|
  {
    if |s| < 4 then (if |s| == 0 then Some([]) else None)
    else
      match (Ungroup(s[..4]), DecodeGroups(s[4..]))
      case (Some(front), Some(back)) => Some(front + back)
      case _ => None
  }

  /** The decoder answers, or stops on a negative length. */
  datatype Outcome = Panicked | Decoded(bytes: Option<seq<byte>>)

  function Decode(s: seq<byte>): Outcome {
    var clean := Clean(s);
    if |s| == 0 then Decoded(Some([]))
    else if |clean| % 4 != 0 then Decoded(None)
    else if |clean| / 4 * 3 < Padding(clean) then Panicked
    else Decoded(DecodeGroups(clean))
  }

  lemma CleanStep(s: seq<byte>, i: nat, clean: seq<byte>)
    requires i < |s|
    ensures clean + Clean(s[i..]) == (if IsSpace(s[i]) then clean else clean + [s[i]]) + Clean(s[i + 1..])
  {
    assert s[i..][1..] == s[i + 1..];
    var rest := Clean(s[i + 1..]);
    hide Clean, IsSpace;
    assert [] + rest == rest && clean + ([s[i]] + rest) == (clean + [s[i]]) + rest;
  }

  method StripSpace(s: seq<byte>) returns (clean: seq<byte>)
    ensures clean == Clean(s)
  {
    hide Clean, IsSpace;
    clean := [];
    var i := 0;
    assert s[0..] == s && [] + Clean(s) == Clean(s);
    while i < |s|
      invariant 0 <= i <= |s|
      invariant clean + Clean(s[i..]) == Clean(s)
    {
      CleanStep(s, i, clean);
      if !IsSpace(s[i]) { clean := clean + [s[i]]; }
      i := i + 1;
    }
    CleanNothing(clean);
    assert s[i..] == [];
  }

  lemma CleanNothing(clean: seq<byte>)
    ensures clean + Clean([]) == clean
  {
  }

  method CountPadding(clean: seq<byte>) returns (padding: nat)
    ensures padding == Padding(clean)
  {
    padding := 0;
    assert clean[..|clean|] == clean;
    while padding < |clean| && clean[|clean| - 1 - padding] == PAD
      invariant 0 <= padding <= |clean|
      invariant Padding(clean) == padding + Padding(clean[..|clean| - padding])
    {
      assert clean[..|clean| - padding][..|clean| - padding - 1] == clean[..|clean| - padding - 1];
      padding := padding + 1;
    }
  }

  method DecodeChunks(clean: seq<byte>) returns (r: Option<seq<byte>>)
    requires |clean| % 4 == 0
    ensures r == DecodeGroups(clean)
  {
    hide DecodeGroups, Value;
    var bytes: seq<byte> := [];
    var i := 0;
    assert clean[0..] == clean;
    NoGroups();
    PrefixNothing(DecodeGroups(clean));
    while i < |clean|
      invariant 0 <= i <= |clean| && i % 4 == 0
      invariant DecodeGroups(clean) == Prefixed(bytes, DecodeGroups(clean[i..]))
    {
      var chunk := clean[i..i + 4];
      GroupStep(clean, i, bytes);
      var a, b := Value(chunk[0]), Value(chunk[1]);
      if a.None? || b.None? { return None; }
      var c := if chunk[2] == PAD then Some(0) else Value(chunk[2]);
      if c.None? { return None; }
      var d := if chunk[3] == PAD then Some(0) else Value(chunk[3]);
      if d.None? { return None; }
      var first, second, third := a.value * 4 + b.value / 16, b.value % 16 * 16 + c.value / 4,
        c.value % 4 * 64 + d.value;
      var two: seq<byte> := if chunk[2] != PAD then [second] else [];
      var three: seq<byte> := if chunk[3] != PAD then [third] else [];
      assert Ungroup(chunk) == Some([first] + two + three);
      bytes := bytes + ([first] + two + three);
      i := i + 4;
    }
    assert clean[i..] == [] && bytes + [] == bytes;
    r := Some(bytes);
  }

  lemma PrefixNothing(r: Option<seq<byte>>)
    ensures Prefixed([], r) == r
  {
    if r.Some? { assert [] + r.value == r.value; }
  }

  lemma NoGroups()
    ensures DecodeGroups([]) == Some([]) && Encode([]) == []
  {
  }

  method DecodeText(s: seq<byte>) returns (out: Outcome)
    ensures out == Decode(s)
  {
    if |s| == 0 { return Decoded(Some([])); }
    var clean := StripSpace(s);
    if |clean| % 4 != 0 { return Decoded(None); }
    var padding := CountPadding(clean);
    if |clean| / 4 * 3 < padding { return Panicked; }
    var bytes := DecodeChunks(clean);
    out := Decoded(bytes);
  }

  function Prefixed(front: seq<byte>, back: Option<seq<byte>>): Option<seq<byte>> {
    if back.Some? then Some(front + back.value) else None
  }

  lemma GroupStep(clean: seq<byte>, i: nat, bytes: seq<byte>)
    requires i + 4 <= |clean| && i % 4 == 0 && |clean| % 4 == 0
    ensures Prefixed(bytes, DecodeGroups(clean[i..])) ==
            match Ungroup(clean[i..i + 4])
            case None => None
            case Some(front) => Prefixed(bytes + front, DecodeGroups(clean[i + 4..]))
  {
    var s := clean[i..];
    assert s[..4] == clean[i..i + 4] && s[4..] == clean[i + 4..];
    var front, back := Ungroup(s[..4]), DecodeGroups(s[4..]);
    if front.Some? && back.Some? {
      assert bytes + (front.value + back.value) == (bytes + front.value) + back.value;
    }
  }

  // ---- the round trip ----

  lemma Split64(n: nat, q: nat, m: nat)
    requires n == q * 64 + m && m < 64
    ensures n / 64 == q && n % 64 == m
  {
  }

  lemma Split4096(n: nat, q: nat, m: nat)
    requires n == q * 0x1000 + m && m < 0x1000
    ensures n / 0x1000 == q
  {
  }

  lemma Split262144(n: nat, q: nat, m: nat)
    requires n == q * 0x4_0000 + m && m < 0x4_0000
    ensures n / 0x4_0000 == q
  {
  }

  /** The four digits of three bytes given as `a*4 + p`, `q*16 + r`, `t*64 + d`. */
  lemma Regroup(n: nat, a: nat, p: nat, q: nat, r: nat, t: nat, d: nat)
    requires a < 64 && p < 4 && q < 16 && r < 16 && t < 4 && d < 64
    requires n == (a * 4 + p) * 0x1_0000 + (q * 16 + r) * 0x100 + (t * 64 + d)
    ensures n / 0x4_0000 == a && n / 0x1000 % 64 == p * 16 + q && n / 64 % 64 == r * 4 + t && n % 64 == d
  {
    Split262144(n, a, p * 0x1_0000 + (q * 16 + r) * 0x100 + (t * 64 + d));
    Split4096(n, a * 64 + (p * 16 + q), r * 0x100 + (t * 64 + d));
    Split64(a * 64 + (p * 16 + q), a, p * 16 + q);
    var top := a * 4096 + (p * 16 + q) * 64 + (r * 4 + t);
    Split64(n, top, d);
    Split64(top, a * 64 + (p * 16 + q), r * 4 + t);
  }

  lemma Sextets(x: byte, y: byte, z: byte)
    ensures var n := Word(x, y, z);
            && n / 0x4_0000 == x / 4 && n / 0x1000 % 64 == x % 4 * 16 + y / 16
            && n / 64 % 64 == y % 16 * 4 + z / 64 && n % 64 == z % 64
  {
    var a: nat, b: nat, c: nat := x, y, z;
    Regroup(Word(x, y, z), a / 4, a % 4, b / 16, b % 16, c / 64, c % 64);
  }

  /** The decoder's shifts undo the encoder's. */
  lemma Rejoined(x: byte, y: byte, z: byte)
    ensures x / 4 * 4 + (x % 4 * 16 + y / 16) / 16 == x
    ensures (x % 4 * 16 + y / 16) % 16 * 16 + (y % 16 * 4 + z / 64) / 4 == y
    ensures (y % 16 * 4 + z / 64) % 4 * 64 + z % 64 == z
  {
  }

  lemma GroupIs(x: byte, y: byte, z: byte)
    ensures x % 4 * 16 + y / 16 < 64 && y % 16 * 4 + z / 64 < 64
    ensures Group(Word(x, y, z)) ==
            [Digit(x / 4), Digit(x % 4 * 16 + y / 16), Digit(y % 16 * 4 + z / 64), Digit(z % 64)]
  {
    hide Digit, Word;
    Sextets(x, y, z);
  }

  lemma UngroupDigits(a: nat, b: nat, c: nat, d: nat)
    requires a < 64 && b < 64 && c < 64 && d < 64
    ensures Ungroup([Digit(a), Digit(b), Digit(c), Digit(d)]) ==
            Some([a * 4 + b / 16, b % 16 * 16 + c / 4, c % 4 * 64 + d])
    ensures Ungroup([Digit(a), Digit(b), Digit(c), PAD]) == Some([a * 4 + b / 16, b % 16 * 16 + c / 4])
    ensures Ungroup([Digit(a), Digit(b), PAD, PAD]) == Some([a * 4 + b / 16])
  {
    var p, q, r, s := Digit(a), Digit(b), Digit(c), Digit(d);
    hide Digit, Value;
    var x, y, z := a * 4 + b / 16, b % 16 * 16 + c / 4, c % 4 * 64 + d;
    assert [x] + [y] + [z] == [x, y, z] && [x] + [y] + [] == [x, y] && [x] + [] + [] == [x];
  }

  lemma GroupsInvert(x: byte, y: byte, z: byte)
    ensures Ungroup(Group(Word(x, y, z))) == Some([x, y, z])
    ensures Ungroup(Group(Word(x, y, 0))[..3] + [PAD]) == Some([x, y])
    ensures Ungroup(Group(Word(x, 0, 0))[..2] + [PAD, PAD]) == Some([x])
  {
    hide Digit, Value, Word, Group, Ungroup;
    var a, b, c, d, e, f := x / 4, x % 4 * 16 + y / 16, y % 16 * 4 + z / 64, z % 64, y % 16 * 4, x % 4 * 16;
    GroupIs(x, y, z);
    GroupIs(x, y, 0);
    GroupIs(x, 0, 0);
    Rejoined(x, y, z);
    Rejoined(x, y, 0);
    Rejoined(x, 0, 0);
    UngroupDigits(a, b, c, d);
    UngroupDigits(a, b, e, 0);
    UngroupDigits(a, f, 0, 0);
    assert Group(Word(x, y, 0))[..3] + [PAD] == [Digit(a), Digit(b), Digit(e), PAD];
    assert Group(Word(x, 0, 0))[..2] + [PAD, PAD] == [Digit(a), Digit(f), PAD, PAD];
  }

  predicate SpaceFree(s: seq<byte>) {
    forall i :: 0 <= i < |s| ==> !IsSpace(s[i])
  }

  lemma EncodedTail(bytes: seq<byte>)
    requires 0 < |bytes| < 3
    ensures |Encode(bytes)| == 4 && DecodeGroups(Encode(bytes)) == Some(bytes) && SpaceFree(Encode(bytes))
  {
    hide Digit, Value, Group, Ungroup, Word;
    var s, y: byte := Encode(bytes), if |bytes| == 2 then bytes[1] else 0;
    var g := Group(Word(bytes[0], y, 0));
    GroupsInvert(bytes[0], y, 0);
    GroupHasNoSpace(Word(bytes[0], y, 0));
    NoGroups();
    assert s[..4] == s && s[4..] == [] && bytes + [] == bytes;
    assert bytes == if |bytes| == 2 then [bytes[0], bytes[1]] else [bytes[0]];
    assert s == if |bytes| == 2 then g[..3] + [PAD] else g[..2] + [PAD, PAD];
  }

  lemma DecodeFront(g: seq<byte>, rest: seq<byte>, front: seq<byte>, back: seq<byte>)
    requires |g| == 4 && Ungroup(g) == Some(front) && DecodeGroups(rest) == Some(back)
    ensures DecodeGroups(g + rest) == Some(front + back)
  {
    assert (g + rest)[..4] == g && (g + rest)[4..] == rest;
    hide Ungroup;
  }

  lemma EncodeFront(bytes: seq<byte>)
    requires |bytes| >= 3
    ensures Encode(bytes) == Group(Word(bytes[0], bytes[1], bytes[2])) + Encode(bytes[3..])
  {
    hide Group, Word;
  }

  lemma ThreeAndRest(bytes: seq<byte>)
    requires |bytes| >= 3
    ensures [bytes[0], bytes[1], bytes[2]] + bytes[3..] == bytes
  {
  }

  lemma {:induction false} EncodedShape(bytes: seq<byte>)
    ensures |Encode(bytes)| % 4 == 0
    ensures DecodeGroups(Encode(bytes)) == Some(bytes) && SpaceFree(Encode(bytes))
    decreases |bytes|
  {
    hide Encode, DecodeGroups, Group, Word, IsSpace, Ungroup;
    if |bytes| >= 3 {
      var g, rest := Group(Word(bytes[0], bytes[1], bytes[2])), bytes[3..];
      EncodeFront(bytes);
      ThreeAndRest(bytes);
      GroupHasNoSpace(Word(bytes[0], bytes[1], bytes[2]));
      GroupsInvert(bytes[0], bytes[1], bytes[2]);
      EncodedShape(rest);
      DecodeFront(g, Encode(rest), [bytes[0], bytes[1], bytes[2]], rest);
    } else if |bytes| > 0 {
      EncodedTail(bytes);
    } else {
      NoGroups();
    }
  }

  lemma GroupHasNoSpace(n: nat)
    requires n < 0x100_0000
    ensures forall i :: 0 <= i < 4 ==> !IsSpace(Group(n)[i])
  {
  }

  lemma {:induction false} CleanLeavesNoSpace(s: seq<byte>)
    requires SpaceFree(s)
    ensures Clean(s) == s
  {
    if |s| > 0 {
      CleanLeavesNoSpace(s[1..]);
      assert [s[0]] + s[1..] == s;
    }
  }

  lemma {:induction false} PaddingIsShort(bytes: seq<byte>)
    ensures Padding(Encode(bytes)) <= 2 && (|bytes| > 0 ==> |Encode(bytes)| >= 4)
    decreases |bytes|
  {
    var s := Encode(bytes);
    if |bytes| > 3 {
      PaddingIsShort(bytes[3..]);
      PaddingOfTail(s[..4], Encode(bytes[3..]));
      assert s == s[..4] + Encode(bytes[3..]);
    } else if |bytes| > 0 {
      if |bytes| == 3 { assert Encode(bytes[3..]) == []; }
      PaddingAtMost(s, 2);
    }
  }

  lemma {:induction false} PaddingAtMost(s: seq<byte>, n: nat)
    requires n < |s| && s[|s| - 1 - n] != PAD
    ensures Padding(s) <= n
    decreases n
  {
    if n > 0 && s[|s| - 1] == PAD { PaddingAtMost(s[..|s| - 1], n - 1); }
  }

  lemma {:induction false} PaddingOfTail(a: seq<byte>, b: seq<byte>)
    requires Padding(b) < |b|
    ensures Padding(a + b) == Padding(b)
    decreases |b|
  {
    if b[|b| - 1] == PAD {
      assert (a + b)[..|a + b| - 1] == a + b[..|b| - 1];
      PaddingOfTail(a, b[..|b| - 1]);
    }
  }

  /** BASE64 INVERTS. Whatever whitespace is inserted into the encoding of any bytes, decoding gives the bytes back. */
  lemma DecodingInverts(bytes: seq<byte>, text: seq<byte>)
    requires Clean(text) == Encode(bytes)
    ensures Decode(text) == Decoded(Some(bytes))
  {
    EncodedShape(bytes);
    PaddingIsShort(bytes);
  }

  lemma PlainDecodingInverts(bytes: seq<byte>)
    ensures Decode(Encode(bytes)) == Decoded(Some(bytes))
  {
    EncodedShape(bytes);
    CleanLeavesNoSpace(Encode(bytes));
    DecodingInverts(bytes, Encode(bytes));
  }

  predicate AllPads(s: seq<byte>, n: nat) {
    n <= |s| && forall i :: |s| - n <= i < |s| ==> s[i] == PAD
  }

  /** The decoder subtracts the padding before it looks at it: it stops exactly on whole groups of which so many
    trailing characters are pads that no three bytes a group are left to subtract them from; four pads alone do. */
  lemma DecodingPanicsExactlyWhen(text: seq<byte>)
    ensures Decode(text).Panicked? <==>
            |Clean(text)| % 4 == 0 && exists n: nat :: AllPads(Clean(text), n) && 4 * n > 3 * |Clean(text)|
    ensures Decode([PAD, PAD, PAD, PAD]).Panicked?
  {
    var s := Clean(text);
    PaddingIsRun(s);
    if exists n: nat :: AllPads(s, n) && 4 * n > 3 * |s| {
      var n: nat :| AllPads(s, n) && 4 * n > 3 * |s|;
      PaddingIsLongest(s, n);
      assert |s| > 0 && |text| > 0;
    }
    var four: seq<byte> := [PAD, PAD, PAD, PAD];
    CleanLeavesNoSpace(four);
    PaddingIsLongest(four, 4);
  }

  lemma {:induction false} PaddingIsLongest(s: seq<byte>, n: nat)
    requires AllPads(s, n)
    ensures n <= Padding(s)
    decreases n
  {
    if n > 0 {
      assert s[|s| - 1] == PAD;
      PaddingIsLongest(s[..|s| - 1], n - 1);
    }
  }

  lemma {:induction false} PaddingIsRun(s: seq<byte>)
    ensures AllPads(s, Padding(s))
    decreases |s|
  {
    if |s| > 0 && s[|s| - 1] == PAD { PaddingIsRun(s[..|s| - 1]); }
  }
}
