/** The payload of a shell-integration frame: hex, the naive JSON lookups, and the hook dispatch.

  Functions give the meaning; the methods below them are the program's loops, each proved to compute its function. */
module Wire {
  import opened Bytes
  import Utf8

  datatype DcsEvent =
    | Precmd(pwd: Option<seq<byte>>, gitBranch: Option<seq<byte>>)
    | Preexec(command: seq<byte>)
    | CommandFinished(exitCode: int)

  const HOOK: seq<byte> := Ascii("hook")
  const PWD: seq<byte> := Ascii("pwd")
  const GIT_BRANCH: seq<byte> := Ascii("git_branch")
  const COMMAND: seq<byte> := Ascii("command")
  const EXIT_CODE: seq<byte> := Ascii("exit_code")
  const PRECMD: seq<byte> := Ascii("Precmd")
  const PREEXEC: seq<byte> := Ascii("Preexec")
  const COMMAND_FINISHED: seq<byte> := Ascii("CommandFinished")

  // ---- hex ----

  function Nibble(b: byte): (r: Option<nat>)
    ensures r.Some? ==> r.value < 16
  {
    if 0x30 <= b <= 0x39 then Some(b - 0x30)
    else if 0x61 <= b <= 0x66 then Some(b - 0x61 + 10)
    else if 0x41 <= b <= 0x46 then Some(b - 0x41 + 10)
    else None
  }

  /** Two digits a byte; an odd digit or a foreign character spoils the whole body. */
  function HexDecode(s: seq<byte>): (r: Option<seq<byte>>)
    ensures r.Some? ==> |s| == 2 * |r.value|
  {
    if |s| == 0 then Some([])
    else if |s| == 1 then None
    else
      match (Nibble(s[0]), Nibble(s[1]), HexDecode(s[2..]))
      case (Some(hi), Some(lo), Some(rest)) => Some([hi * 16 + lo] + rest)
      case _ => None
  }

  // ---- key lookup ----

  predicate KeyAt(json: seq<byte>, key: seq<byte>, i: nat) {
    && i + |key| + 3 <= |json|
    && json[i] == QUOTE
    && json[i + 1..i + 1 + |key|] == key
    && json[i + 1 + |key|] == QUOTE
    && json[i + 2 + |key|] == COLON
  }

  function FirstKey(json: seq<byte>, key: seq<byte>, i: nat): (r: Option<nat>)
    ensures r.Some? ==> i <= r.value && r.value + |key| + 3 <= |json| && KeyAt(json, key, r.value)
    ensures r.Some? ==> forall j :: i <= j < r.value ==> !KeyAt(json, key, j)
    ensures r.None? ==> forall j :: i <= j ==> !KeyAt(json, key, j)
    decreases |json| - i
  {
    if i + |key| + 3 > |json| then None
    else if KeyAt(json, key, i) then Some(i)
    else FirstKey(json, key, i + 1)
  }

  predicate IsBlank(b: byte) {
    b == 0x20 || b == 0x09 || b == 0x0A || b == 0x0D
  }

  function SkipBlanks(json: seq<byte>, i: nat): (r: nat)
    requires i <= |json|
    ensures i <= r <= |json|
    decreases |json| - i
  {
    if i < |json| && IsBlank(json[i]) then SkipBlanks(json, i + 1) else i
  }

  function ValueStart(json: seq<byte>, key: seq<byte>): (r: Option<nat>)
    ensures r.Some? ==> r.value <= |json|
  {
    match FirstKey(json, key, 0)
    case None => None
    case Some(i) => Some(SkipBlanks(json, i + |key| + 3))
  }

  // ---- string values ----

  function HexValue(s: seq<byte>): (r: Option<nat>)
    ensures r.Some? && |s| <= 1 ==> r.value <= 0xF
    ensures r.Some? && |s| <= 2 ==> r.value <= 0xFF
    ensures r.Some? && |s| <= 3 ==> r.value <= 0xFFF
    ensures r.Some? && |s| <= 4 ==> r.value <= 0xFFFF
  {
    if |s| == 0 then Some(0)
    else
      match (HexValue(s[..|s| - 1]), Nibble(s[|s| - 1]))
      case (Some(high), Some(low)) => Some(high * 16 + low)
      case _ => None
  }

  /** What the escape at `i` (a backslash) stands for, and how many bytes it takes. */
  function Unescape(json: seq<byte>, i: nat): (r: Option<(seq<byte>, nat)>)
    requires i < |json|
    ensures r.Some? ==> 2 <= r.value.1 && i + r.value.1 <= |json|
  {
    if i + 1 >= |json| then None
    else
      var e := json[i + 1];
      if e == QUOTE || e == BACKSLASH || e == 0x2F then Some(([e], 2))
      else if e == 0x6E then Some(([0x0A], 2))
      else if e == 0x72 then Some(([0x0D], 2))
      else if e == 0x74 then Some(([0x09], 2))
      else if e == 0x62 then Some(([0x08], 2))
      else if e == 0x66 then Some(([0x0C], 2))
      else if e == 0x75 && i + 6 <= |json| then
        match HexValue(json[i + 2..i + 6])
        case None => None
        case Some(code) =>
          match Utf8.EncodeBmp(code)
          case None => None
          case Some(bytes) => Some((bytes, 6))
      else None
  }

  function Prepend(head: seq<byte>, tail: Option<seq<byte>>): Option<seq<byte>> {
    if tail.Some? then Some(head + tail.value) else None
  }

  /** The string whose body starts at `i`, up to its closing quote. */
  function ReadBody(json: seq<byte>, i: nat): Option<seq<byte>>
    decreases |json| - i
  {
    if i >= |json| then None
    else if json[i] == QUOTE then Some([])
    else if json[i] == BACKSLASH then
      match Unescape(json, i)
      case None => None
      case Some((bytes, width)) => Prepend(bytes, ReadBody(json, i + width))
    else Prepend([json[i]], ReadBody(json, i + 1))
  }

  function ReadString(json: seq<byte>, start: nat): Option<seq<byte>> {
    if start < |json| && json[start] == QUOTE then ReadBody(json, start + 1) else None
  }

  function FindString(json: seq<byte>, key: seq<byte>): Option<seq<byte>> {
    match ValueStart(json, key)
    case None => None
    case Some(start) => ReadString(json, start)
  }

  // ---- integer values ----

  predicate IsDigit(b: byte) {
    0x30 <= b <= 0x39
  }

  function DigitsEnd(json: seq<byte>, i: nat): (r: nat)
    requires i <= |json|
    ensures i <= r <= |json|
    ensures forall j :: i <= j < r ==> IsDigit(json[j])
    decreases |json| - i
  {
    if i < |json| && IsDigit(json[i]) then DigitsEnd(json, i + 1) else i
  }

  function DecimalValue(s: seq<byte>): nat
    requires forall j :: 0 <= j < |s| ==> IsDigit(s[j])
  {
    if |s| == 0 then 0
    else
      var digit: int := s[|s| - 1];
      assert IsDigit(s[|s| - 1]);
      DecimalValue(s[..|s| - 1]) * 10 + (digit - 0x30)
  }

  /** An optional minus sign and digits; a magnitude outside `i64` is no number at all. */
  function ReadInt(json: seq<byte>, at: nat): Option<int>
    requires at <= |json|
  {
    var negative := at < |json| && json[at] == 0x2D;
    var start := if negative then at + 1 else at;
    var end := DigitsEnd(json, start);
    if end == start then None
    else
      var n: int := DecimalValue(json[start..end]);
      if n > I64_MAX then None else Some(if negative then -n else n)
  }

  function FindInt(json: seq<byte>, key: seq<byte>): Option<int> {
    match ValueStart(json, key)
    case None => None
    case Some(start) => ReadInt(json, start)
  }

  // ---- dispatch ----

  function IfText(bytes: Option<seq<byte>>): Option<seq<byte>> {
    if bytes.Some? && Utf8.Valid(bytes.value) then bytes else None
  }

  function NonEmpty(bytes: Option<seq<byte>>): Option<seq<byte>> {
    if bytes.Some? && bytes.value == [] then None else bytes
  }

  function OrEmpty(bytes: Option<seq<byte>>): seq<byte> {
    if bytes.Some? then bytes.value else []
  }

  function ParseJson(json: seq<byte>): Option<DcsEvent> {
    var hook := FindString(json, HOOK);
    if hook == Some(PRECMD) then
      Some(Precmd(IfText(FindString(json, PWD)), NonEmpty(IfText(FindString(json, GIT_BRANCH)))))
    else if hook == Some(PREEXEC) then
      Some(Preexec(OrEmpty(IfText(FindString(json, COMMAND)))))
    else if hook == Some(COMMAND_FINISHED) then
      match FindInt(json, EXIT_CODE) {
        case None => None
        case Some(n) => Some(CommandFinished(WrapI32(n)))
      }
    else None
  }

  function ParseBody(body: seq<byte>): Option<DcsEvent> {
    match HexDecode(body)
    case None => None
    case Some(json) => ParseJson(json)
  }

  // ---- the loops ----

  lemma {:induction false} HexDecodeAppend(s: seq<byte>, pair: seq<byte>)
    requires |s| % 2 == 0 && |pair| == 2
    ensures HexDecode(s + pair) ==
            match (HexDecode(s), Nibble(pair[0]), Nibble(pair[1]))
            case (Some(front), Some(hi), Some(lo)) => Some(front + [hi * 16 + lo])
            case _ => None
  {
    if |s| == 0 {
      assert s + pair == pair && pair[2..] == [];
      assert forall x: byte :: [] + [x] == [x] + [];
    } else {
      HexDecodeAppend(s[2..], pair);
      assert (s + pair)[2..] == s[2..] + pair;
      var hi, lo, tail := Nibble(s[0]), Nibble(s[1]), HexDecode(s[2..]);
      var last := (Nibble(pair[0]), Nibble(pair[1]));
      if hi.Some? && lo.Some? && tail.Some? && last.0.Some? && last.1.Some? {
        var head: seq<byte> := [hi.value * 16 + lo.value];
        var end: seq<byte> := [last.0.value * 16 + last.1.value];
        assert head + (tail.value + end) == (head + tail.value) + end;
      }
    }
  }

  lemma {:induction false} HexDecodeSpoilt(s: seq<byte>, rest: seq<byte>)
    requires |s| % 2 == 0 && HexDecode(s).None?
    ensures HexDecode(s + rest).None?
  {
    if |s| > 0 {
      assert (s + rest)[2..] == s[2..] + rest;
      if HexDecode(s[2..]).None? {
        HexDecodeSpoilt(s[2..], rest);
      }
    }
  }

  method DecodeHex(input: seq<byte>) returns (r: Option<seq<byte>>)
    ensures r == HexDecode(input)
  {
    if |input| % 2 != 0 {
      OddHex(input);
      return None;
    }
    var out: seq<byte> := [];
    var i := 0;
    while i < |input|
      invariant 0 <= i <= |input| && i % 2 == 0
      invariant HexDecode(input[..i]) == Some(out)
    {
      var hi, lo := Nibble(input[i]), Nibble(input[i + 1]);
      HexDecodeAppend(input[..i], input[i..i + 2]);
      assert input[..i + 2] == input[..i] + input[i..i + 2];
      if hi.None? || lo.None? {
        HexDecodeSpoilt(input[..i + 2], input[i + 2..]);
        assert input == input[..i + 2] + input[i + 2..];
        return None;
      }
      out := out + [hi.value * 16 + lo.value];
      i := i + 2;
    }
    assert input[..i] == input;
    r := Some(out);
  }

  lemma {:induction false} OddHex(s: seq<byte>)
    requires |s| % 2 != 0
    ensures HexDecode(s).None?
  {
    if |s| > 1 { OddHex(s[2..]); }
  }

  method FindValueStart(json: seq<byte>, key: seq<byte>) returns (r: Option<nat>)
    ensures r == ValueStart(json, key)
  {
    var i := 0;
    while i + |key| + 3 <= |json|
      invariant FirstKey(json, key, i) == FirstKey(json, key, 0)
    {
      if json[i] == QUOTE && json[i + 1..i + 1 + |key|] == key && json[i + 1 + |key|] == QUOTE
         && json[i + 2 + |key|] == COLON
      {
        var start := i + 3 + |key|;
        while start < |json| && IsBlank(json[start])
          invariant start <= |json|
          invariant SkipBlanks(json, start) == SkipBlanks(json, i + 3 + |key|)
        {
          start := start + 1;
        }
        return Some(start);
      }
      i := i + 1;
    }
    r := None;
  }

  method DecodeUnicodeEscape(hex: seq<byte>) returns (code: Option<nat>)
    ensures code == HexValue(hex)
  {
    var value := 0;
    var j := 0;
    while j < |hex|
      invariant j <= |hex|
      invariant HexValue(hex[..j]) == Some(value)
    {
      assert hex[..j + 1][..j] == hex[..j];
      var v := Nibble(hex[j]);
      if v.None? {
        HexValueSpoilt(hex, j + 1);
        return None;
      }
      value := value * 16 + v.value;
      j := j + 1;
    }
    assert hex[..j] == hex;
    code := Some(value);
  }

  lemma {:induction false} HexValueSpoilt(s: seq<byte>, j: nat)
    requires j <= |s| && HexValue(s[..j]).None?
    ensures HexValue(s).None?
  {
    if j == |s| {
      assert s[..j] == s;
    } else {
      assert s[..|s| - 1][..j] == s[..j];
      HexValueSpoilt(s[..|s| - 1], j);
    }
  }

  method ReadJsonString(json: seq<byte>, start: nat) returns (r: Option<seq<byte>>)
    ensures r == ReadString(json, start)
  {
    if start >= |json| || json[start] != QUOTE {
      return None;
    }
    var i := start + 1;
    var out: seq<byte> := [];
    assert forall tail: seq<byte> :: [] + tail == tail;
    while i < |json|
      invariant Prepend(out, ReadBody(json, i)) == ReadBody(json, start + 1)
      decreases |json| - i
    {
      if json[i] == QUOTE {
        assert out + [] == out;
        return Some(out);
      } else if json[i] == BACKSLASH {
        if i + 1 >= |json| { return None; }
        var e := json[i + 1];
        var width := 2;
        ghost var before := out;
        if e == QUOTE || e == BACKSLASH || e == 0x2F {
          out := out + [e];
        } else if e == 0x6E {
          out := out + [0x0A];
        } else if e == 0x72 {
          out := out + [0x0D];
        } else if e == 0x74 {
          out := out + [0x09];
        } else if e == 0x62 {
          out := out + [0x08];
        } else if e == 0x66 {
          out := out + [0x0C];
        } else if e == 0x75 {
          if i + 6 > |json| { return None; }
          var code := DecodeUnicodeEscape(json[i + 2..i + 6]);
          if code.None? { return None; }
          var bytes := Utf8.EncodeBmp(code.value);
          if bytes.None? { return None; }
          out := out + bytes.value;
          width := 6;
        } else {
          return None;
        }
        PrependPrepend(before, Unescape(json, i).value.0, ReadBody(json, i + width));
        i := i + width;
      } else {
        PrependPrepend(out, [json[i]], ReadBody(json, i + 1));
        out := out + [json[i]];
        i := i + 1;
      }
    }
    r := None;
  }

  lemma PrependPrepend(a: seq<byte>, b: seq<byte>, tail: Option<seq<byte>>)
    ensures Prepend(a, Prepend(b, tail)) == Prepend(a + b, tail)
  {
    if tail.Some? { assert a + (b + tail.value) == (a + b) + tail.value; }
  }

  method FindIntInValue(json: seq<byte>, key: seq<byte>) returns (r: Option<int>)
    ensures r == FindInt(json, key)
  {
    var found := FindValueStart(json, key);
    if found.None? { return None; }
    var start := found.value;
    var negative := start < |json| && json[start] == 0x2D;
    if negative { start := start + 1; }
    var end := start;
    while end < |json| && IsDigit(json[end])
      invariant start <= end <= |json|
      invariant DigitsEnd(json, end) == DigitsEnd(json, start)
    {
      end := end + 1;
    }
    if end == start { return None; }
    var n: int := DecimalValue(json[start..end]);
    if n > I64_MAX { return None; }
    r := Some(if negative then -n else n);
  }

  method FindStringInValue(json: seq<byte>, key: seq<byte>) returns (r: Option<seq<byte>>)
    ensures r == FindString(json, key)
  {
    var start := FindValueStart(json, key);
    if start.None? { return None; }
    r := ReadJsonString(json, start.value);
  }

  method ParseFrameBody(body: seq<byte>) returns (r: Option<DcsEvent>)
    ensures r == ParseBody(body)
  {
    var decoded := DecodeHex(body);
    if decoded.None? { return None; }
    var json := decoded.value;
    var hook := FindStringInValue(json, HOOK);
    if hook == Some(PRECMD) {
      var pwd := FindStringInValue(json, PWD);
      var branch := FindStringInValue(json, GIT_BRANCH);
      r := Some(Precmd(IfText(pwd), NonEmpty(IfText(branch))));
    } else if hook == Some(PREEXEC) {
      var command := FindStringInValue(json, COMMAND);
      r := Some(Preexec(OrEmpty(IfText(command))));
    } else if hook == Some(COMMAND_FINISHED) {
      var n := FindIntInValue(json, EXIT_CODE);
      r := if n.Some? then Some(CommandFinished(WrapI32(n.value))) else None;
    } else {
      r := None;
    }
  }
}
