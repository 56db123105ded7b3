/** What the shell prints, and why the naive lookups read it back: no value can pass for a key. */
module WirePrinter {
  import opened Bytes
  import opened Wire
  import Utf8

  const LBRACE: byte := 0x7B
  const RBRACE: byte := 0x7D
  const COMMA: byte := 0x2C

  // ---- the shell's JSON string escaper ----

  function HexDigit(n: nat): (b: byte)
    requires n < 16
    ensures Nibble(b) == Some(n) && 0x30 <= b <= 0x66
  {
    if n < 10 then 0x30 + n else 0x61 + n - 10
  }

  function EscapeByte(b: byte): seq<byte> {
    if b == 0x08 then [BACKSLASH, 0x62]
    else if b == 0x09 then [BACKSLASH, 0x74]
    else if b == 0x0A then [BACKSLASH, 0x6E]
    else if b == 0x0C then [BACKSLASH, 0x66]
    else if b == 0x0D then [BACKSLASH, 0x72]
    else if b == QUOTE || b == BACKSLASH then [BACKSLASH, b]
    else if b < 0x20 then [BACKSLASH, 0x75, 0x30, 0x30, HexDigit(b / 16), HexDigit(b % 16)]
    else [b]
  }

  function JsonEscape(v: seq<byte>): seq<byte> {
    if |v| == 0 then [] else EscapeByte(v[0]) + JsonEscape(v[1..])
  }

  /** A quote in escaped text always follows a backslash. */
  lemma {:induction false} QuotesAreGuarded(v: seq<byte>)
    ensures forall j :: 0 <= j < |JsonEscape(v)| && JsonEscape(v)[j] == QUOTE ==>
              j > 0 && JsonEscape(v)[j - 1] == BACKSLASH
  {
    if |v| > 0 { QuotesAreGuarded(v[1..]); }
  }

  lemma UnescapeEscaped(b: byte, rest: seq<byte>)
    requires EscapeByte(b)[0] == BACKSLASH
    ensures Unescape(EscapeByte(b) + rest, 0) == Some(([b], |EscapeByte(b)|))
  {
    var s := EscapeByte(b) + rest;
    if |EscapeByte(b)| == 6 {
      var hex := s[2..6];
      assert hex == [0x30, 0x30, HexDigit(b / 16), HexDigit(b % 16)];
      assert hex[..3][..2] == [0x30, 0x30] && hex[..3][..2][..1] == [0x30] && hex[..3][..2][..1][..0] == [];
      assert HexValue(hex[..3][..2][..1]) == Some(0);
      assert HexValue(hex[..3][..2]) == Some(0);
      assert HexValue(hex[..3]) == Some(b / 16);
      assert HexValue(hex) == Some(b);
    }
  }

  /** Reading is position-independent. */
  lemma {:induction false} ReadBodySuffix(json: seq<byte>, n: nat, i: nat)
    requires n + i <= |json|
    ensures ReadBody(json, n + i) == ReadBody(json[n..], i)
    decreases |json| - i
  {
    var tail := json[n..];
    if n + i < |json| && tail[i] != QUOTE {
      if tail[i] == BACKSLASH {
        if i + 6 <= |tail| { assert json[n + i + 2..n + i + 6] == tail[i + 2..i + 6]; }
        assert Unescape(json, n + i) == Unescape(tail, i);
        var u := Unescape(tail, i);
        if u.Some? { ReadBodySuffix(json, n, i + u.value.1); }
      } else {
        ReadBodySuffix(json, n, i + 1);
      }
    }
  }

  lemma ReadFirst(c: byte, tail: seq<byte>)
    ensures var head := EscapeByte(c);
            |head| > 0 && ReadBody(head + tail, 0) == Prepend([c], ReadBody(head + tail, |head|))
  {
    if EscapeByte(c)[0] == BACKSLASH { UnescapeEscaped(c, tail); }
    hide Unescape;
  }

  lemma {:induction false} ReadEscaped(v: seq<byte>, rest: seq<byte>)
    ensures ReadBody(JsonEscape(v) + [QUOTE] + rest, 0) == Some(v)
  {
    var s := JsonEscape(v) + [QUOTE] + rest;
    if |v| > 0 {
      var head := EscapeByte(v[0]);
      var tail := JsonEscape(v[1..]) + [QUOTE] + rest;
      assert s == head + tail;
      hide JsonEscape, ReadBody, EscapeByte;
      ReadEscaped(v[1..], rest);
      ReadFirst(v[0], tail);
      ReadBodySuffix(s, |head|, 0);
      assert s[|head|..] == tail;
      assert [v[0]] + v[1..] == v;
    }
  }

  // ---- payloads as tokens ----

  /** A member with a string or an integer value, the name of a nested object, or a brace or comma. */
  datatype Token =
    | Punct(b: byte)
    | Text(key: seq<byte>, value: seq<byte>)
    | Number(key: seq<byte>, n: int)
    | Nested(key: seq<byte>)

  predicate CleanKey(key: seq<byte>) {
    |key| > 0 && forall b :: b in key ==> 0x61 <= b <= 0x7A || b == 0x5F
  }

  function PrintNat(n: nat): (s: seq<byte>)
    ensures |s| > 0 && forall j :: 0 <= j < |s| ==> IsDigit(s[j])
  {
    if n < 10 then [0x30 + n] else PrintNat(n / 10) + [0x30 + n % 10]
  }

  function PrintInt(n: int): (s: seq<byte>)
    ensures |s| > 0 && QUOTE !in s && (IsDigit(s[0]) <==> n >= 0) && (s[0] == 0x2D <==> n < 0)
  {
    if n < 0 then [0x2D] + PrintNat(-n) else PrintNat(n)
  }

  function Label(key: seq<byte>): seq<byte> {
    [QUOTE] + key + [QUOTE, COLON]
  }

  function ValueText(t: Token): seq<byte>
    requires !t.Punct?
  {
    match t
    case Text(_, value) => [QUOTE] + JsonEscape(value) + [QUOTE]
    case Number(_, n) => PrintInt(n)
    case Nested(_) => []
  }

  function Print(t: Token): seq<byte> {
    if t.Punct? then [t.b] else Label(t.key) + ValueText(t)
  }

  function PrintAll(ts: seq<Token>): seq<byte> {
    if |ts| == 0 then [] else Print(ts[0]) + PrintAll(ts[1..])
  }

  predicate IsPunct(b: byte) {
    b == LBRACE || b == RBRACE || b == COMMA
  }

  predicate EndsValue(rest: seq<byte>) {
    |rest| > 0 && IsPunct(rest[0])
  }

  predicate GoodToken(t: Token) {
    if t.Punct? then IsPunct(t.b) else CleanKey(t.key)
  }

  /** Names are clean, and every member is followed by a brace or a comma. */
  predicate WellFormed(ts: seq<Token>) {
    |ts| > 0 ==>
      GoodToken(ts[0]) && (!ts[0].Punct? ==> |ts| > 1 && ts[1].Punct?) && WellFormed(ts[1..])
  }

  predicate Named(t: Token, key: seq<byte>) {
    !t.Punct? && t.key == key
  }

  /** The first member called `key`. */
  function Lookup(ts: seq<Token>, key: seq<byte>): (r: Option<Token>)
    ensures r.Some? ==> Named(r.value, key)
  {
    if |ts| == 0 then None
    else if Named(ts[0], key) then Some(ts[0])
    else Lookup(ts[1..], key)
  }

  lemma KeyAtShift(front: seq<byte>, back: seq<byte>, key: seq<byte>, i: nat)
    ensures KeyAt(front + back, key, |front| + i) == KeyAt(back, key, i)
  {
    var s := front + back;
    if i + |key| + 3 <= |back| {
      assert s[|front| + i + 1..|front| + i + 1 + |key|] == back[i + 1..i + 1 + |key|];
    }
  }

  /** A match spells the key, and no key byte is a quote, a colon or a backslash. */
  lemma MatchIsClean(s: seq<byte>, key: seq<byte>, i: nat)
    requires CleanKey(key) && KeyAt(s, key, i)
    ensures forall p :: i < p <= i + |key| ==> s[p] == key[p - i - 1] && (0x61 <= s[p] <= 0x7A || s[p] == 0x5F)
    ensures var q := i + 1 + |key|; s[q] == QUOTE && s[q + 1] == COLON && s[q - 1] != BACKSLASH && !IsPunct(s[i + 1])
  {
    forall p | i < p <= i + |key| ensures s[p] == key[p - i - 1] && (0x61 <= s[p] <= 0x7A || s[p] == 0x5F) {
      assert s[p] == s[i + 1..i + 1 + |key|][p - i - 1] && key[p - i - 1] in key;
    }
    assert s[i + |key|] != BACKSLASH && !IsPunct(s[i + 1]);
  }

  /** In `"name":…` a clean key matches at the front only, and only if it is the name. */
  lemma KeyAtLabel(name: seq<byte>, rest: seq<byte>, key: seq<byte>, i: nat)
    requires CleanKey(name) && CleanKey(key)
    requires i < |Label(name)|
    ensures KeyAt(Label(name) + rest, key, i) <==> i == 0 && key == name
  {
    var s := Label(name) + rest;
    assert s[1..1 + |name|] == name;
    assert forall j :: 0 < j <= |name| ==> s[j] == name[j - 1] && name[j - 1] in name;
    assert s[0] == QUOTE && s[1 + |name|] == QUOTE && s[2 + |name|] == COLON;
    if KeyAt(s, key, i) { MatchIsClean(s, key, i); }
  }

  /** A match cannot reach past a guarded stretch of text: the text's quotes follow backslashes, its end no colon. */
  lemma KeyAvoidsText(s: seq<byte>, key: seq<byte>, i: nat, close: nat)
    requires CleanKey(key) && |key| > 0 && i <= close && close + 1 < |s|
    requires s[close] == QUOTE && IsPunct(s[close + 1])
    requires forall j :: 0 < j < close && s[j] == QUOTE ==> j > 1 && s[j - 1] == BACKSLASH
    ensures !KeyAt(s, key, i)
  {
    hide CleanKey;
    if KeyAt(s, key, i) {
      MatchIsClean(s, key, i);
    }
  }

  /** No key is found inside a string value, nor at its quotes, when a brace or a comma follows. */
  lemma NoKeyInValue(value: seq<byte>, rest: seq<byte>, key: seq<byte>, i: nat)
    requires CleanKey(key) && EndsValue(rest)
    requires i <= |JsonEscape(value)| + 1
    ensures !KeyAt([QUOTE] + JsonEscape(value) + [QUOTE] + rest, key, i)
  {
    var e := JsonEscape(value);
    var s := [QUOTE] + e + [QUOTE] + rest;
    QuotesAreGuarded(value);
    assert forall j :: 0 < j <= |e| ==> s[j] == e[j - 1];
    KeyAvoidsText(s, key, i, |e| + 1);
  }

  lemma NoKeyInPlain(s: seq<byte>, rest: seq<byte>, key: seq<byte>, i: nat)
    requires i < |s| && QUOTE !in s
    ensures !KeyAt(s + rest, key, i)
  {
    assert (s + rest)[i] == s[i] && s[i] in s;
  }

  lemma TokenIs(t: Token, rest: seq<byte>)
    requires GoodToken(t)
    ensures t.Punct? ==> QUOTE !in Print(t)
    ensures !t.Punct? ==>
              && Print(t) + rest == Label(t.key) + (ValueText(t) + rest)
              && |Print(t)| == |Label(t.key)| + |ValueText(t)|
    ensures t.Text? ==>
              && ValueText(t) + rest == [QUOTE] + JsonEscape(t.value) + [QUOTE] + rest
              && |ValueText(t)| == |JsonEscape(t.value)| + 2
    ensures t.Number? ==> QUOTE !in ValueText(t)
    ensures t.Nested? ==> ValueText(t) == []
    ensures !t.Punct? ==> CleanKey(t.key) && |Label(t.key)| > 0
  {
    hide PrintInt, JsonEscape, CleanKey;
    if !t.Punct? { assert (Label(t.key) + ValueText(t)) + rest == Label(t.key) + (ValueText(t) + rest); }
  }

  lemma NamedIs(t: Token, key: seq<byte>)
    ensures Named(t, key) <==> !t.Punct? && t.key == key
  {
  }

  lemma NoKeyInToken(t: Token, rest: seq<byte>, key: seq<byte>, i: nat)
    requires CleanKey(key) && GoodToken(t) && i < |Print(t)|
    requires !t.Punct? ==> EndsValue(rest)
    ensures KeyAt(Print(t) + rest, key, i) <==> i == 0 && Named(t, key)
  {
    hide *;
    TokenIs(t, rest);
    NamedIs(t, key);
    if t.Punct? {
      NoKeyInPlain(Print(t), rest, key, i);
    } else {
      var lead := Label(t.key);
      var value := ValueText(t);
      if i < |lead| {
        KeyAtLabel(t.key, value + rest, key, i);
      } else {
        KeyAtShift(lead, value + rest, key, i - |lead|);
        if t.Text? { NoKeyInValue(t.value, rest, key, i - |lead|); }
        if t.Number? { NoKeyInPlain(value, rest, key, i - |lead|); }
      }
    }
  }

  lemma DropPast(front: seq<byte>, back: seq<byte>)
    ensures forall at {:trigger back[at..]} :: 0 <= at <= |back| ==> (front + back)[|front| + at..] == back[at..]
  {
  }

  lemma SearchStops(s: seq<byte>, key: seq<byte>)
    requires KeyAt(s, key, 0)
    ensures FirstKey(s, key, 0) == Some(0) && s[0..] == s
  {
  }

  lemma SearchSkips(front: seq<byte>, back: seq<byte>, key: seq<byte>)
    requires forall i: nat :: i < |front| ==> !KeyAt(front + back, key, i)
    ensures FirstKey(front + back, key, 0) ==
            match FirstKey(back, key, 0) { case None => None case Some(j) => Some(|front| + j) }
  {
    var here, there := FirstKey(front + back, key, 0), FirstKey(back, key, 0);
    if there.Some? { KeyAtShift(front, back, key, there.value); }
    if here.Some? { KeyAtShift(front, back, key, here.value - |front|); }
  }

  lemma SearchNothing(key: seq<byte>)
    ensures FirstKey([], key, 0) == None
  {
  }

  lemma BehindValue(ts: seq<Token>)
    requires WellFormed(ts) && |ts| > 0
    ensures GoodToken(ts[0]) && WellFormed(ts[1..]) && (!ts[0].Punct? ==> EndsValue(PrintAll(ts[1..])))
    ensures |Print(ts[0])| > 0
  {
  }

  /** The search over the printed bytes finds the first member of that name, whatever the values before it hold. */
  lemma {:induction false} SearchFinds(ts: seq<Token>, key: seq<byte>) returns (rest: seq<byte>)
    requires WellFormed(ts) && CleanKey(key)
    ensures FirstKey(PrintAll(ts), key, 0).Some? <==> Lookup(ts, key).Some?
    ensures Lookup(ts, key).Some? ==>
              EndsValue(rest) &&
              PrintAll(ts)[FirstKey(PrintAll(ts), key, 0).value..] == Print(Lookup(ts, key).value) + rest
  {
    hide KeyAt, FirstKey, CleanKey, Print, EndsValue;
    rest := [];
    if |ts| == 0 {
      SearchNothing(key);
    } else {
      var t, back := ts[0], PrintAll(ts[1..]);
      BehindValue(ts);
      assert 0 < |Print(t)|;
      forall i: nat | i < |Print(t)|
        ensures KeyAt(Print(t) + back, key, i) <==> i == 0 && Named(t, key)
      {
        NoKeyInToken(t, back, key, i);
      }
      if Named(t, key) {
        rest := back;
        SearchStops(Print(t) + back, key);
      } else {
        SearchSkips(Print(t), back, key);
        rest := SearchFinds(ts[1..], key);
        DropPast(Print(t), back);
      }
    }
  }

  lemma {:induction false} DecimalRoundTrip(n: nat)
    ensures DecimalValue(PrintNat(n)) == n
  {
    var s := PrintNat(n);
    if n < 10 {
      assert s[..0] == [];
    } else {
      DecimalRoundTrip(n / 10);
      assert s[..|s| - 1] == PrintNat(n / 10);
    }
  }

  lemma {:induction false} DigitsEndAt(json: seq<byte>, i: nat, end: nat)
    requires i <= end <= |json|
    requires forall j :: i <= j < end ==> IsDigit(json[j])
    requires end < |json| ==> !IsDigit(json[end])
    ensures DigitsEnd(json, i) == end
    decreases end - i
  {
    if i < end { DigitsEndAt(json, i + 1, end); }
  }

  lemma ReadPrintedNat(s: seq<byte>, from: nat, n: nat, rest: seq<byte>)
    requires from <= |s| && s[from..] == PrintNat(n) + rest
    requires EndsValue(rest)
    ensures DigitsEnd(s, from) == from + |PrintNat(n)|
    ensures DecimalValue(s[from..from + |PrintNat(n)|]) == n
  {
    hide PrintNat, DigitsEnd, DecimalValue;
    var end := from + |PrintNat(n)|;
    assert s[from..end] == s[from..][..|PrintNat(n)|] == PrintNat(n);
    assert forall j :: from <= j < end ==> s[j] == s[from..end][j - from];
    assert s[end] == s[from..][end - from] == rest[0];
    DigitsEndAt(s, from, end);
    DecimalRoundTrip(n);
  }

  lemma ReadIntFrom(s: seq<byte>, at: nat, start: nat, end: nat)
    requires at <= start < end <= |s| && DigitsEnd(s, start) == end
    requires if s[at] == 0x2D then start == at + 1 else start == at
    ensures var m: int := DecimalValue(s[start..end]);
            ReadInt(s, at) == if m > I64_MAX then None else if start == at then Some(m) else Some(-m)
  {
  }

  lemma NegativeLayout(s: seq<byte>, at: nat, m: nat, rest: seq<byte>)
    requires at <= |s| && s[at..] == [0x2D] + PrintNat(m) + rest
    ensures at < |s| && s[at] == 0x2D && s[at + 1..] == PrintNat(m) + rest
  {
    assert s[at] == s[at..][0];
    assert s[at + 1..] == s[at..][1..];
  }

  lemma PositiveLayout(s: seq<byte>, at: nat, m: nat, rest: seq<byte>)
    requires at <= |s| && s[at..] == PrintNat(m) + rest
    ensures at < |s| && s[at] != 0x2D
  {
    assert s[at] == s[at..][0] == PrintNat(m)[0];
    assert IsDigit(PrintNat(m)[0]);
  }

  lemma ReadPrintedInt(s: seq<byte>, at: nat, n: int, rest: seq<byte>)
    requires at <= |s| && s[at..] == PrintInt(n) + rest
    requires EndsValue(rest)
    ensures ReadInt(s, at) == if -I64_MAX <= n <= I64_MAX then Some(n) else None
  {
    hide PrintNat, DecimalValue, DigitsEnd, ReadInt;
    if n < 0 {
      NegativeLayout(s, at, -n, rest);
      ReadPrintedNat(s, at + 1, -n, rest);
      ReadIntFrom(s, at, at + 1, at + 1 + |PrintNat(-n)|);
    } else {
      PositiveLayout(s, at, n, rest);
      ReadPrintedNat(s, at, n, rest);
      ReadIntFrom(s, at, at, at + |PrintNat(n)|);
    }
  }

  /** The value of the found member starts right after its label. */
  lemma ValueFollows(json: seq<byte>, at: nat, t: Token, rest: seq<byte>) returns (from: nat)
    requires !t.Punct? && at <= |json| && json[at..] == Print(t) + rest
    requires EndsValue(rest)
    ensures from == at + |t.key| + 3 < |json|
    ensures json[from..] == ValueText(t) + rest
    ensures SkipBlanks(json, from) == from
  {
    hide JsonEscape, PrintNat, PrintInt;
    from := at + |t.key| + 3;
    assert |Print(t)| >= |t.key| + 3;
    assert json[from..] == json[at..][|t.key| + 3..];
    assert json[from] == json[from..][0];
    assert t.Number? ==> !IsBlank(PrintInt(t.n)[0]);
    assert Print(t)[|t.key| + 3..] == ValueText(t);
  }

  lemma ReadQuoted(json: seq<byte>, from: nat, value: seq<byte>, rest: seq<byte>)
    requires from <= |json| && json[from..] == [QUOTE] + JsonEscape(value) + [QUOTE] + rest
    ensures ReadString(json, from) == Some(value)
  {
    assert json[from] == json[from..][0];
    assert json[from + 1..] == json[from..][1..] == JsonEscape(value) + [QUOTE] + rest;
    ReadBodySuffix(json, from + 1, 0);
    ReadEscaped(value, rest);
  }

  /** NO SPOOFING, strings. Whatever bytes the values hold, a string lookup on the printed payload returns exactly
    the value of the first member of that name, and nothing when there is no such member or it is not a string. */
  lemma StringLookupIsFaithful(ts: seq<Token>, key: seq<byte>)
    requires WellFormed(ts) && CleanKey(key)
    ensures FindString(PrintAll(ts), key) ==
            if Lookup(ts, key).Some? && Lookup(ts, key).value.Text? then Some(Lookup(ts, key).value.value) else None
  {
    hide FirstKey, KeyAt, SkipBlanks, JsonEscape, PrintInt, PrintNat, ReadBody, Lookup, PrintAll, CleanKey, WellFormed;
    var rest := SearchFinds(ts, key);
    if Lookup(ts, key).Some? {
      var json, t := PrintAll(ts), Lookup(ts, key).value;
      var from := ValueFollows(json, FirstKey(json, key, 0).value, t, rest);
      if t.Text? {
        ReadQuoted(json, from, t.value, rest);
      } else {
        assert json[from] == json[from..][0];
      }
    }
  }

  /** NO SPOOFING, numbers. */
  lemma IntLookupIsFaithful(ts: seq<Token>, key: seq<byte>)
    requires WellFormed(ts) && CleanKey(key)
    ensures FindInt(PrintAll(ts), key) ==
            if Lookup(ts, key).Some? && Lookup(ts, key).value.Number? && -I64_MAX <= Lookup(ts, key).value.n <= I64_MAX
            then Some(Lookup(ts, key).value.n) else None
  {
    hide FirstKey, KeyAt, SkipBlanks, JsonEscape, PrintInt, PrintNat, DigitsEnd, DecimalValue, Lookup, PrintAll,
         CleanKey, WellFormed;
    var rest := SearchFinds(ts, key);
    if Lookup(ts, key).Some? {
      var json, t := PrintAll(ts), Lookup(ts, key).value;
      var from := ValueFollows(json, FirstKey(json, key, 0).value, t, rest);
      if t.Number? {
        ReadPrintedInt(json, from, t.n, rest);
      } else {
        assert json[from] == json[from..][0];
      }
    }
  }

  // ---- the three messages ----

  /** What the shell has to say; the strings are its raw variables. */
  datatype Message =
    | PrecmdMessage(pwd: seq<byte>, branch: seq<byte>)
    | PreexecMessage(command: seq<byte>)
    | FinishedMessage(status: int)

  /** The escaper is an awk program reading lines: a final newline is not part of any record. */
  function AwkText(v: seq<byte>): seq<byte> {
    if |v| > 0 && v[|v| - 1] == NEWLINE then v[..|v| - 1] else v
  }

  const VALUE: seq<byte> := Ascii("value")

  function Envelope(hook: seq<byte>, members: seq<Token>): seq<Token> {
    [Punct(LBRACE), Text(HOOK, hook), Punct(COMMA), Nested(VALUE), Punct(LBRACE)] + members
    + [Punct(RBRACE), Punct(RBRACE)]
  }

  function Tokens(m: Message): seq<Token> {
    Envelope(HookName(m), Members(m))
  }

  function Payload(m: Message): seq<byte> {
    PrintAll(Tokens(m))
  }

  /** What the terminal is told: text that is not UTF-8 is absent, an empty branch is absent, an exit status is
    cut to 32 bits, and a status outside 64 bits loses the event. */
  function Heard(m: Message): Option<DcsEvent> {
    match m
    case PrecmdMessage(pwd, branch) =>
      Some(Precmd(IfText(Some(AwkText(pwd))), NonEmpty(IfText(Some(AwkText(branch))))))
    case PreexecMessage(command) => Some(Preexec(OrEmpty(IfText(Some(AwkText(command))))))
    case FinishedMessage(status) =>
      if -I64_MAX <= status <= I64_MAX then Some(CommandFinished(WrapI32(status))) else None
  }

  lemma NamesAreClean()
    ensures CleanKey(HOOK) && CleanKey(VALUE) && CleanKey(PWD) && CleanKey(GIT_BRANCH) && CleanKey(COMMAND)
    ensures CleanKey(EXIT_CODE)
    ensures HOOK[0] == 0x68 && VALUE[0] == 0x76 && PWD[0] == 0x70 && GIT_BRANCH[0] == 0x67 && COMMAND[0] == 0x63
    ensures EXIT_CODE[0] == 0x65
    ensures |PRECMD| == 6 && |PREEXEC| == 7 && |COMMAND_FINISHED| == 15
  {
  }

  lemma {:induction false} LookupPast(front: seq<Token>, back: seq<Token>, key: seq<byte>)
    requires forall t :: t in front ==> !Named(t, key)
    ensures Lookup(front + back, key) == Lookup(back, key)
  {
    if |front| == 0 {
      assert front + back == back;
    } else {
      assert (front + back)[1..] == front[1..] + back;
      LookupPast(front[1..], back, key);
    }
  }

  lemma EnvelopeLookup(hook: seq<byte>, members: seq<Token>, key: seq<byte>)
    requires key != VALUE && CleanKey(key)
    ensures Lookup(Envelope(hook, members), key) ==
            if key == HOOK then Some(Text(HOOK, hook)) else Lookup(members + [Punct(RBRACE), Punct(RBRACE)], key)
  {
    hide CleanKey;
    var head: seq<Token> := [Punct(LBRACE), Text(HOOK, hook), Punct(COMMA), Nested(VALUE), Punct(LBRACE)];
    var tail := members + [Punct(RBRACE), Punct(RBRACE)];
    assert Envelope(hook, members) == head + tail == head[..1] + (head[1..] + tail);
    if key == HOOK {
      LookupPast(head[..1], head[1..] + tail, key);
    } else {
      LookupPast(head, tail, key);
    }
  }

  lemma EnvelopeIsWellFormed(hook: seq<byte>, members: seq<Token>)
    requires WellFormed(members + [Punct(RBRACE), Punct(RBRACE)])
    ensures WellFormed(Envelope(hook, members))
  {
    NamesAreClean();
    var ts, tail := Envelope(hook, members), members + [Punct(RBRACE), Punct(RBRACE)];
    assert ts[1..][1..][1..][1..][1..] == tail;
    assert WellFormed(ts[1..][1..][1..][1..]);
    assert WellFormed(ts[1..][1..][1..]);
    assert WellFormed(ts[1..][1..]);
  }

  function Members(m: Message): seq<Token> {
    match m
    case PrecmdMessage(pwd, branch) => [Text(PWD, AwkText(pwd)), Punct(COMMA), Text(GIT_BRANCH, AwkText(branch))]
    case PreexecMessage(command) => [Text(COMMAND, AwkText(command))]
    case FinishedMessage(status) => [Number(EXIT_CODE, status)]
  }

  function HookName(m: Message): seq<byte> {
    match m
    case PrecmdMessage(_, _) => PRECMD
    case PreexecMessage(_) => PREEXEC
    case FinishedMessage(_) => COMMAND_FINISHED
  }

  lemma MembersLookup(m: Message)
    ensures WellFormed(Members(m) + [Punct(RBRACE), Punct(RBRACE)])
    ensures var tail := Members(m) + [Punct(RBRACE), Punct(RBRACE)];
            match m
            case PrecmdMessage(pwd, branch) =>
              Lookup(tail, PWD) == Some(Text(PWD, AwkText(pwd))) &&
              Lookup(tail, GIT_BRANCH) == Some(Text(GIT_BRANCH, AwkText(branch)))
            case PreexecMessage(command) => Lookup(tail, COMMAND) == Some(Text(COMMAND, AwkText(command)))
            case FinishedMessage(status) => Lookup(tail, EXIT_CODE) == Some(Number(EXIT_CODE, status))
  {
    NamesAreClean();
    var tail := Members(m) + [Punct(RBRACE), Punct(RBRACE)];
    var last: seq<Token> := [Punct(RBRACE), Punct(RBRACE)];
    assert last[1..] == [Punct(RBRACE)] && WellFormed(last[1..]) && WellFormed(last);
    if m.PrecmdMessage? {
      assert tail[1..][1..][1..] == last;
      assert WellFormed(tail[1..][1..]) && WellFormed(tail[1..]);
      assert Lookup(tail[1..], GIT_BRANCH) == Some(Text(GIT_BRANCH, AwkText(m.branch)));
    } else {
      assert tail[1..] == last;
    }
  }

  lemma MessageIsHeardAsJson(m: Message)
    ensures ParseJson(Payload(m)) == Heard(m)
  {
    NamesAreClean();
    MembersLookup(m);
    EnvelopeIsWellFormed(HookName(m), Members(m));
    EnvelopeLookup(HookName(m), Members(m), HOOK);
    StringLookupIsFaithful(Tokens(m), HOOK);
    match m
    case PrecmdMessage(pwd, branch) =>
      EnvelopeLookup(PRECMD, Members(m), PWD);
      EnvelopeLookup(PRECMD, Members(m), GIT_BRANCH);
      StringLookupIsFaithful(Tokens(m), PWD);
      StringLookupIsFaithful(Tokens(m), GIT_BRANCH);
    case PreexecMessage(command) =>
      EnvelopeLookup(PREEXEC, Members(m), COMMAND);
      StringLookupIsFaithful(Tokens(m), COMMAND);
    case FinishedMessage(status) =>
      EnvelopeLookup(COMMAND_FINISHED, Members(m), EXIT_CODE);
      IntLookupIsFaithful(Tokens(m), EXIT_CODE);
  }

  // ---- hex ----

  function HexEncode(s: seq<byte>): (r: seq<byte>)
    ensures forall j :: 0 <= j < |r| ==> 0x30 <= r[j] <= 0x66
  {
    if |s| == 0 then [] else [HexDigit(s[0] / 16), HexDigit(s[0] % 16)] + HexEncode(s[1..])
  }

  lemma {:induction false} HexRoundTrip(s: seq<byte>)
    ensures HexDecode(HexEncode(s)) == Some(s)
  {
    if |s| > 0 {
      HexRoundTrip(s[1..]);
      assert HexEncode(s)[2..] == HexEncode(s[1..]);
      assert [s[0]] + s[1..] == s;
    }
  }

  /** Every message the shell can print is heard, for all values of its variables. */
  lemma MessageIsHeard(m: Message)
    ensures ParseBody(HexEncode(Payload(m))) == Heard(m)
  {
    HexRoundTrip(Payload(m));
    MessageIsHeardAsJson(m);
  }
}
