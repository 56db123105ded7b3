/** The connect form: what may be saved, and that saving emits exactly the chosen secrets. */
module ConnectForm {
  import opened Bytes
  import Base64

  datatype Result<+T, +E> = Ok(value: T) | Err(error: E)

  // ---- text ----

  /** White_Space of the Unicode character database. */
  predicate IsBlank(c: char) {
    var v := c as int;
    0x09 <= v <= 0x0D || v == 0x20 || v == 0x85 || v == 0xA0 || v == 0x1680 || 0x2000 <= v <= 0x200A
    || v == 0x2028 || v == 0x2029 || v == 0x202F || v == 0x205F || v == 0x3000
  }

  function TrimStart(s: string): (r: string)
    ensures |r| > 0 ==> !IsBlank(r[0])
    ensures |s| > 0 && !IsBlank(s[0]) ==> r == s
  {
    if |s| > 0 && IsBlank(s[0]) then TrimStart(s[1..]) else s
  }

  function TrimEnd(s: string): (r: string)
    ensures r <= s
    ensures |r| > 0 ==> !IsBlank(r[|r| - 1])
    ensures |s| > 0 && !IsBlank(s[|s| - 1]) ==> r == s
  {
    if |s| > 0 && IsBlank(s[|s| - 1]) then TrimEnd(s[..|s| - 1]) else s
  }

  function Trim(s: string): (r: string)
    ensures |r| > 0 ==> !IsBlank(r[0]) && !IsBlank(r[|r| - 1])
  {
    TrimEnd(TrimStart(s))
  }

  lemma TrimTwice(s: string)
    ensures Trim(Trim(s)) == Trim(s)
  {
  }

  function DigitValue(c: char): Option<nat> {
    if '0' <= c <= '9' then Some(c as int - '0' as int) else None
  }

  function Decimal(s: string): (r: Option<nat>)
  {
    if |s| == 0 then Some(0)
    else
      match (Decimal(s[..|s| - 1]), DigitValue(s[|s| - 1]))
      case (Some(high), Some(low)) => Some(high * 10 + low)
      case _ => None
  }

  /** `parse::<u16>`: an optional plus sign, at least one digit, at most 65535. */
  function ParsePort(s: string): (r: Option<nat>)
    ensures r.Some? ==> r.value <= 65535
  {
    var digits := if |s| > 0 && s[0] == '+' then s[1..] else s;
    if |digits| == 0 then None
    else
      match Decimal(digits)
      case None => None
      case Some(n) => if n <= 65535 then Some(n) else None
  }

  function DigitChar(d: nat): (c: char)
    requires d < 10
    ensures '0' <= c <= '9' && DigitValue(c) == Some(d)
  {
    ('0' as int + d) as char
  }

  predicate AllDigits(s: string) {
    |s| > 0 && forall i :: 0 <= i < |s| ==> '0' <= s[i] <= '9'
  }

  function PrintNat(n: nat): (s: string)
    ensures AllDigits(s)
  {
    if n < 10 then [DigitChar(n)] else PrintNat(n / 10) + [DigitChar(n % 10)]
  }

  lemma {:induction false} DecimalOfPrint(n: nat)
    ensures Decimal(PrintNat(n)) == Some(n)
  {
    hide DigitChar, DigitValue, AllDigits;
    var s := PrintNat(n);
    if n < 10 {
      assert s[..0] == [];
    } else {
      DecimalOfPrint(n / 10);
      assert s[..|s| - 1] == PrintNat(n / 10) && s[|s| - 1] == DigitChar(n % 10);
    }
  }

  lemma PrintedPortParses(n: nat)
    requires n <= 65535
    ensures ParsePort(PrintNat(n)) == Some(n) && Trim(PrintNat(n)) == PrintNat(n)
  {
    hide PrintNat, Decimal;
    DecimalOfPrint(n);
  }

  // ---- host and port ----

  function Find(s: string, c: char): (r: Option<nat>)
    ensures r.Some? ==> r.value < |s| && s[r.value] == c && forall i :: 0 <= i < r.value ==> s[i] != c
    ensures r.None? ==> forall i :: 0 <= i < |s| ==> s[i] != c
  {
    if |s| == 0 then None
    else if s[0] == c then Some(0)
    else
      match Find(s[1..], c)
      case None => None
      case Some(i) => Some(i + 1)
  }

  /** `h` has the form `[inside]:tail`: the inside and the tail. */
  function Bracketed(h: string): Option<(string, string)> {
    if |h| > 0 && h[0] == '[' then
      match Find(h[1..], ']')
      case None => None
      case Some(i) =>
        var after := h[i + 2..];
        if |after| > 0 && after[0] == ':' then Some((h[1..i + 1], after[1..])) else None
    else None
  }

  predicate ClosesBracket(h: string) {
    |h| > 0 && h[0] == '[' && Find(h[1..], ']').Some?
  }

  function Colons(s: string): nat {
    if |s| == 0 then 0 else (if s[0] == ':' then 1 else 0) + Colons(s[1..])
  }

  /** `h` has one colon, and a port behind it: what is before it, and the port. */
  function Suffixed(h: string): Option<(string, nat)> {
    match Find(h, ':')
    case None => None
    case Some(i) =>
      if Colons(h) != 1 then None
      else
        match ParsePort(h[i + 1..])
        case None => None
        case Some(p) => Some((h[..i], p))
  }

  function NormalizedHost(raw: string): string {
    var h := Trim(raw);
    if Bracketed(h).Some? then Bracketed(h).value.0
    else if ClosesBracket(h) then h
    else if Suffixed(h).Some? then Suffixed(h).value.0
    else h
  }

  /** The port written in the host field, if any. */
  function EmbeddedPort(raw: string): Option<nat> {
    var h := Trim(raw);
    if Bracketed(h).Some? && ParsePort(Bracketed(h).value.1).Some? then ParsePort(Bracketed(h).value.1)
    else if Suffixed(h).Some? then Some(Suffixed(h).value.1)
    else None
  }

  function NormalizedPort(host: string, port: string): (r: Option<nat>)
    ensures r.Some? ==> r.value <= 65535
  {
    if EmbeddedPort(host).Some? then EmbeddedPort(host) else ParsePort(Trim(port))
  }

  /** The host field is taken as it stands. */
  predicate Plain(h: string) {
    Trim(h) == h && Bracketed(h).None? && (ClosesBracket(h) || Suffixed(h).None?)
  }

  lemma PlainHostsStay(h: string)
    ensures NormalizedHost(h) == h <==> Plain(h)
  {
    var t := Trim(h);
    TrimIsShorter(h);
    if t != h { assert |NormalizedHost(h)| < |h|; }
  }

  lemma TrimIsShorter(h: string)
    ensures Trim(h) == h || |Trim(h)| < |h|
  {
    StartIsShorter(h);
  }

  lemma {:induction false} StartIsShorter(h: string)
    ensures TrimStart(h) == h || |TrimStart(h)| < |h|
  {
    if |h| > 0 && IsBlank(h[0]) { StartIsShorter(h[1..]); }
  }

  /** A pasted `host:port` or `[host]:port` is taken apart, whatever stands in the port field. */
  lemma PastedAddress(host: string, p: nat, field: string)
    requires p <= 65535 && |host| > 0 && Trim(host) == host
    requires forall i :: 0 <= i < |host| ==> host[i] != ']'
    ensures var v6 := "[" + host + "]:" + PrintNat(p);
            NormalizedHost(v6) == host && NormalizedPort(v6, field) == Some(p)
    ensures var v4 := host + ":" + PrintNat(p);
            (forall i :: 0 <= i < |host| ==> host[i] != ':') ==>
              NormalizedHost(v4) == host && NormalizedPort(v4, field) == Some(p)
  {
    hide Trim, Bracketed, ClosesBracket, Suffixed, PrintNat, ParsePort, AllDigits;
    PrintedPortParses(p);
    BracketedAddress(host, PrintNat(p));
    if forall i :: 0 <= i < |host| ==> host[i] != ':' { SuffixedAddress(host, PrintNat(p)); }
  }

  lemma BracketedAddress(host: string, digits: string)
    requires AllDigits(digits)
    requires forall i :: 0 <= i < |host| ==> host[i] != ']'
    ensures var h := "[" + host + "]:" + digits; Trim(h) == h && Bracketed(h) == Some((host, digits))
  {
    hide TrimStart, TrimEnd, Find;
    var h := "[" + host + "]:" + digits;
    assert h[|h| - 1] == digits[|digits| - 1];
    assert h[1..] == host + ("]:" + digits);
    assert h[1..][|host|] == ']';
    assert Find(h[1..], ']') == Some(|host|);
    assert h[|host| + 2..] == ":" + digits && h[1..|host| + 1] == host;
  }

  lemma {:induction false} NoColons(s: string)
    requires forall i :: 0 <= i < |s| ==> s[i] != ':'
    ensures Colons(s) == 0
  {
    if |s| > 0 { NoColons(s[1..]); }
  }

  lemma {:induction false} ColonsConcatenate(a: string, b: string)
    ensures Colons(a + b) == Colons(a) + Colons(b)
  {
    if |a| == 0 {
      assert a + b == b;
    } else {
      assert (a + b)[1..] == a[1..] + b;
      ColonsConcatenate(a[1..], b);
    }
  }

  lemma OneColon(s: string)
    ensures Colons(":" + s) == 1 + Colons(s)
  {
    assert (":" + s)[1..] == s;
  }

  lemma SuffixedAddress(host: string, digits: string)
    requires AllDigits(digits)
    requires |host| > 0 && Trim(host) == host && ParsePort(digits).Some?
    requires forall i :: 0 <= i < |host| ==> host[i] != ':' && host[i] != ']'
    ensures var h := host + ":" + digits;
            Trim(h) == h && Bracketed(h).None? && !ClosesBracket(h)
              && Suffixed(h) == Some((host, ParsePort(digits).value))
  {
    hide TrimStart, TrimEnd, Find, ParsePort, Colons;
    var h := host + ":" + digits;
    assert h[0] == host[0] && h[|h| - 1] == digits[|digits| - 1];
    forall i | 0 <= i < |h| ensures h[i] != ']' && (i <= |host| ==> (h[i] == ':' <==> i == |host|)) {
      assert h[i] == if i < |host| then host[i] else if i == |host| then ':' else digits[i - |host| - 1];
    }
    var found := Find(h, ':');
    assert h[|host|] == ':';
    assert Find(h, ':') == Some(|host|);
    assert h[|host| + 1..] == digits && h[..|host|] == host;
    NoColons(host);
    NoColons(digits);
    OneColon(digits);
    ColonsConcatenate(host, ":" + digits);
    assert host + (":" + digits) == h;
  }

  /** The host parser took something off exactly if the port parser found something. */
  predicate ParsersAgree(raw: string) {
    EmbeddedPort(raw).Some? <==> NormalizedHost(raw) != Trim(raw)
  }

  lemma BracketedHasAColon(h: string)
    requires Bracketed(h).Some? && Suffixed(h).Some?
    ensures ParsePort(Bracketed(h).value.1) == Some(Suffixed(h).value.1)
  {
    var i := Find(h[1..], ']').value;
    var j := Find(h, ':').value;
    var c := i + 2;
    assert h[c..][0] == h[c] == ':' && h[c..][1..] == h[c + 1..];
    if j < c {
      ColonsConcatenate(h[..j + 1], h[j + 1..]);
      assert h[..j + 1] + h[j + 1..] == h;
      ColonAt(h[..j + 1], j);
      ColonAt(h[j + 1..], c - j - 1);
    }
  }

  lemma {:induction false} ColonAt(s: string, i: nat)
    requires i < |s| && s[i] == ':'
    ensures Colons(s) >= 1
  {
    if i > 0 { ColonAt(s[1..], i - 1); }
  }

  /** THE TWO ADDRESS PARSERS AGREE, EXACTLY WHEN the address is neither `[inside]:tail` with a tail that is no port,
    whose tail is dropped, nor a bracket followed by something else with one port behind it, whose port is taken
    although the host keeps it. */
  lemma ParsersAgreeExactlyWhen(raw: string)
    ensures var h := Trim(raw);
            ParsersAgree(raw) <==>
            && !(Bracketed(h).Some? && ParsePort(Bracketed(h).value.1).None?)
            && !(Bracketed(h).None? && ClosesBracket(h) && Suffixed(h).Some?)
  {
    var h := Trim(raw);
    if Bracketed(h).Some? && Suffixed(h).Some? { BracketedHasAColon(h); }
    hide Trim, ParsePort, Colons, Find;
    if Bracketed(h).Some? {
      assert |Bracketed(h).value.0| < |h|;
    } else if Suffixed(h).Some? {
      assert |Suffixed(h).value.0| < |h|;
    }
  }

  lemma BracketThenHost()
    ensures Bracketed("[a]b:22") == None && ClosesBracket("[a]b:22") && Trim("[a]b:22") == "[a]b:22"
  {
    var h := "[a]b:22";
    assert Trim(h) == h;
    hide Trim, TrimStart, TrimEnd;
    assert h[1..] == "a]b:22" && h[1..][1..] == "]b:22";
    assert Find(h[1..], ']') == Some(1) && h[3..] == "b:22";
  }

  /** `front`, which has no colon, and a port. */
  lemma SuffixIsPort(front: string, p: nat)
    requires p <= 65535 && forall i :: 0 <= i < |front| ==> front[i] != ':'
    ensures Suffixed(front + (":" + PrintNat(p))) == Some((front, p))
  {
    var digits := PrintNat(p);
    var h := front + (":" + digits);
    PrintedPortParses(p);
    hide Trim, TrimStart, TrimEnd, PrintNat, ParsePort, Colons, Find;
    NoColons(front);
    NoColons(digits);
    OneColon(digits);
    ColonsConcatenate(front, ":" + digits);
    assert h[|front|] == ':' && forall i :: 0 <= i < |front| ==> h[i] != ':';
    assert Find(h, ':') == Some(|front|);
    assert h[..|front|] == front && h[|front| + 1..] == digits;
  }

  lemma PortIsTaken()
    ensures EmbeddedPort("[a]b:22") == Some(22) && NormalizedHost("[a]b:22") == "[a]b:22"
  {
    BracketThenHost();
    SuffixIsPort("[a]b", 22);
    assert PrintNat(22) == "22" && "[a]b" + (":" + "22") == "[a]b:22";
    hide Trim, Bracketed, ClosesBracket, Suffixed, PrintNat;
  }

  lemma TailIsDropped()
    ensures NormalizedHost("[a]:x") == "a" && EmbeddedPort("[a]:x") == None
  {
    var g := "[a]:x";
    assert Trim(g) == g;
    hide Trim, TrimStart, TrimEnd;
    assert g[1..] == "a]:x" && g[1..][1..] == "]:x";
    assert Find(g[1..], ']') == Some(1) && g[3..] == ":x" && g[1..2] == "a" && g[3..][1..] == "x";
    assert Bracketed(g) == Some(("a", "x"));
    assert ParsePort("x") == None;
    hide Bracketed, ParsePort;
    if Suffixed(g).Some? { BracketedHasAColon(g); }
  }

  /** An input of each kind: `[a]b:22` keeps its port in the host and has it taken, `[a]:x` loses its tail. */
  lemma ParsersDisagree()
    ensures !ParsersAgree("[a]b:22") && !ParsersAgree("[a]:x")
    ensures EmbeddedPort("[a]b:22") == Some(22) && NormalizedHost("[a]b:22") == "[a]b:22"
    ensures NormalizedHost("[a]:x") == "a" && EmbeddedPort("[a]:x") == None
  {
    PortIsTaken();
    TailIsDropped();
    assert Trim("[a]b:22") == "[a]b:22" && Trim("[a]:x") == "[a]:x";
    hide EmbeddedPort, NormalizedHost;
  }

  // ---- the form ----

  datatype AuthKind = Password | PrivateKey

  datatype Mode =
    | Add
    | Edit(id: string, originalAuth: AuthKind, existingPassword: Option<string>, existingPrivateKey: Option<seq<byte>>,
           existingPassphrase: Option<string>)

  /** The messages, before localisation. */
  datatype Problem = Required | BadPort | NoKey

  datatype Form = Form(
    mode: Mode, label_: string, host: string, port: string, username: string, isUsingKey: bool,
    password: string, privateKey: seq<byte>, passphrase: string,
    passwordTouched: bool, privateKeyTouched: bool, passphraseTouched: bool, errorMessage: Option<Problem>)

  datatype SaveOutcome = SaveOutcome(
    id: string, label_: string, host: string, port: nat, username: string, authIsKey: bool,
    password: Option<string>, privateKeyBase64: Option<seq<byte>>, passphrase: Option<string>)

  const BLANK := Form(Add, "", "", "", "", false, "", [], "", false, false, false, None)

  function Kind(isKey: bool): AuthKind {
    if isKey then PrivateKey else Password
  }

  function Prefilled(id: string, label_: string, host: string, port: nat, username: string, isKey: bool,
                     password: Option<string>, key: Option<seq<byte>>, passphrase: Option<string>): Form
  {
    Form(Edit(id, Kind(isKey), password, key, passphrase), label_, host, PrintNat(port), username, isKey,
         "", [], "", false, false, false, None)
  }

  predicate HasPassword(f: Form) {
    match f.mode
    case Add => f.password != ""
    case Edit(_, auth, password, _, _) =>
      if f.passwordTouched then f.password != "" else auth == Password && password.Some?
  }

  predicate HasPrivateKey(f: Form) {
    match f.mode
    case Add => f.privateKey != []
    case Edit(_, auth, _, key, _) =>
      if f.privateKeyTouched then f.privateKey != [] else auth == PrivateKey && key.Some?
  }

  predicate HasPassphrase(f: Form) {
    match f.mode
    case Add => f.passphrase != ""
    case Edit(_, auth, _, _, passphrase) =>
      if f.passphraseTouched then f.passphrase != "" else auth == PrivateKey && passphrase.Some?
  }

  predicate RequiresFreshSecret(f: Form) {
    match f.mode
    case Add => true
    case Edit(_, auth, _, _, _) =>
      Kind(f.isUsingKey) != auth || if f.isUsingKey then f.privateKeyTouched else f.passwordTouched
  }

  function Validate(f: Form): Option<Problem> {
    var port := NormalizedPort(f.host, f.port);
    if NormalizedHost(f.host) == "" || Trim(f.username) == "" then Some(Required)
    else if port.None? || port.value < 1 then Some(BadPort)
    else if f.isUsingKey then
      if RequiresFreshSecret(f) then (if f.privateKey == [] then Some(NoKey) else None)
      else if f.mode.Edit? && f.mode.existingPrivateKey.Some? && f.mode.originalAuth == PrivateKey then None
      else Some(NoKey)
    else if RequiresFreshSecret(f) then (if f.password == "" then Some(Required) else None)
    else if f.mode.Edit? && f.mode.existingPassword.Some? && f.mode.originalAuth == Password then None
    else Some(Required)
  }

  function SomeUnlessEmpty(s: string): Option<string> {
    if s == "" then None else Some(s)
  }

  function ResolveSecrets(f: Form): (Option<string>, Option<seq<byte>>, Option<string>) {
    var edit := f.mode.Edit?;
    var preservePassword := edit && f.mode.originalAuth == Password && f.mode.existingPassword.Some?;
    var preserveKey := edit && f.mode.originalAuth == PrivateKey && f.mode.existingPrivateKey.Some?;
    var preservePass := edit && f.mode.originalAuth == PrivateKey && f.mode.existingPassphrase.Some?;
    var switched := edit && (f.mode.originalAuth == PrivateKey) != f.isUsingKey;
    if f.isUsingKey then
      (None,
       if switched || f.privateKeyTouched || !preserveKey then Some(f.privateKey) else f.mode.existingPrivateKey,
       if switched || f.passphraseTouched || !preservePass then SomeUnlessEmpty(f.passphrase)
       else f.mode.existingPassphrase)
    else
      (if switched || f.passwordTouched || !preservePassword then Some(f.password) else f.mode.existingPassword,
       None, None)
  }

  function TrySave(f: Form, newId: string): (Form, Result<SaveOutcome, Problem>) {
    var problem := Validate(f);
    if problem.Some? then (f.(errorMessage := problem), Err(problem.value))
    else
      var done := f.(errorMessage := None);
      var port := NormalizedPort(f.host, f.port);
      if port.None? then (done, Err(BadPort))
      else
        var secrets := ResolveSecrets(f);
        (done,
         Ok(SaveOutcome(if f.mode.Add? then newId else f.mode.id, Trim(f.label_), NormalizedHost(f.host), port.value,
                        Trim(f.username), f.isUsingKey, secrets.0,
                        if secrets.1.Some? then Some(Base64.Encode(secrets.1.value)) else None, secrets.2)))
  }

  // ---- what saving means ----

  /** The secret that must come out: a fresh one where one is required, the stored one otherwise. */
  predicate EmitsPassword(f: Form, password: Option<string>) {
    if RequiresFreshSecret(f) then f.password != "" && password == Some(f.password)
    else
      && f.mode.Edit? && f.mode.originalAuth == Password && f.mode.existingPassword.Some?
      && password == f.mode.existingPassword
  }

  predicate EmitsKey(f: Form, key: seq<byte>) {
    if RequiresFreshSecret(f) then f.privateKey != [] && key == f.privateKey
    else f.mode.Edit? && f.mode.originalAuth == PrivateKey && f.mode.existingPrivateKey == Some(key)
  }

  /** SAVING IS FAITHFUL. It succeeds exactly when validation accepts; then it emits one auth family only, the fresh
    secret where one was required and the stored one byte for byte otherwise, and the emitted key decodes to exactly
    those bytes. */
  lemma SavingIsFaithful(f: Form, newId: string)
    ensures var r := TrySave(f, newId).1;
            && (r.Ok? <==> Validate(f).None?)
            && (r.Ok? ==>
                  var o := r.value;
                  && 1 <= o.port <= 65535 && o.host != "" && o.username != ""
                  && o.authIsKey == f.isUsingKey
                  && (f.mode.Edit? ==> o.id == f.mode.id)
                  && (if f.isUsingKey then
                        && o.password.None? && o.privateKeyBase64.Some?
                        && (exists key ::
                              EmitsKey(f, key) && Base64.Decode(o.privateKeyBase64.value) == Base64.Decoded(Some(key)))
                      else
                        EmitsPassword(f, o.password) && o.privateKeyBase64.None? && o.passphrase.None?))
  {
    hide NormalizedHost, NormalizedPort, Trim, Base64.Encode, Base64.Decode;
    if Validate(f).None? && f.isUsingKey {
      var key := ResolveSecrets(f).1.value;
      Base64.PlainDecodingInverts(key);
      assert EmitsKey(f, key);
    }
  }

  // ---- whole sessions of editing ----

  datatype Op =
    | SetLabel(text: string) | SetHost(text: string) | SetPort(text: string) | SetUsername(text: string)
    | SetPassword(text: string) | SetPassphrase(text: string) | SetPrivateKey(bytes: seq<byte>)
    | SetUsingKey(isKey: bool) | Save(newId: string)

  function Do(f: Form, op: Op): Form {
    match op
    case SetLabel(text) => f.(label_ := text)
    case SetHost(text) => f.(host := text)
    case SetPort(text) => f.(port := text)
    case SetUsername(text) => f.(username := text)
    case SetPassword(text) => f.(password := text, passwordTouched := true)
    case SetPassphrase(text) => f.(passphrase := text, passphraseTouched := true)
    case SetPrivateKey(bytes) => f.(privateKey := bytes, privateKeyTouched := true)
    case SetUsingKey(isKey) => f.(isUsingKey := isKey)
    case Save(newId) => TrySave(f, newId).0
  }

  function DoAll(f: Form, ops: seq<Op>): Form
    decreases |ops|
  {
    if |ops| == 0 then f else DoAll(Do(f, ops[0]), ops[1..])
  }

  /** A secret field the user did not touch is empty: no stored secret is ever shown. */
  predicate Honest(f: Form) {
    && (!f.passwordTouched ==> f.password == "")
    && (!f.privateKeyTouched ==> f.privateKey == [])
    && (!f.passphraseTouched ==> f.passphrase == "")
  }

  lemma NewFormsAreHonest(id: string, text: string, host: string, port: nat, username: string, isKey: bool,
                          password: Option<string>, key: Option<seq<byte>>, passphrase: Option<string>)
    ensures Honest(BLANK) && Honest(BLANK.(port := "22"))
    ensures Honest(Prefilled(id, text, host, port, username, isKey, password, key, passphrase))
  {
  }

  lemma DoKeepsHonest(f: Form, op: Op)
    requires Honest(f)
    ensures Honest(Do(f, op)) && Do(f, op).mode == f.mode
  {
    hide Validate, NormalizedPort, ResolveSecrets;
  }

  lemma {:induction false} EditsKeepHonest(f: Form, ops: seq<Op>)
    requires Honest(f)
    ensures Honest(DoAll(f, ops)) && DoAll(f, ops).mode == f.mode
    decreases |ops|
  {
    if |ops| > 0 {
      DoKeepsHonest(f, ops[0]);
      hide Do, Honest;
      EditsKeepHonest(Do(f, ops[0]), ops[1..]);
    }
  }

  /** Over every run of edits, the form is ready to save exactly when its address is good and it reports the secret of
    the chosen kind as set. */
  lemma ReadyExactlyWhenTheSecretIsSet(f: Form)
    requires Honest(f)
    ensures Validate(f).None? <==>
            && NormalizedHost(f.host) != "" && Trim(f.username) != ""
            && NormalizedPort(f.host, f.port).Some? && NormalizedPort(f.host, f.port).value >= 1
            && if f.isUsingKey then HasPrivateKey(f) else HasPassword(f)
  {
    hide NormalizedHost, NormalizedPort, Trim;
  }

  /** A key is saved with a passphrase exactly when the form reports one as set. */
  lemma PassphraseIsEmittedExactlyWhenSet(f: Form, newId: string)
    requires Honest(f) && TrySave(f, newId).1.Ok?
    ensures TrySave(f, newId).1.value.passphrase.Some? <==> f.isUsingKey && HasPassphrase(f)
  {
    hide NormalizedHost, NormalizedPort, Trim, Base64.Encode;
  }

  /** Edits that leave the secrets alone. */
  predicate Untouching(op: Op) {
    !op.SetPassword? && !op.SetPassphrase? && !op.SetPrivateKey?
  }

  lemma {:induction false} UntouchedStays(f: Form, ops: seq<Op>)
    requires forall i :: 0 <= i < |ops| ==> Untouching(ops[i])
    ensures var g := DoAll(f, ops);
            && g.mode == f.mode && g.passwordTouched == f.passwordTouched
            && g.privateKeyTouched == f.privateKeyTouched && g.passphraseTouched == f.passphraseTouched
    decreases |ops|
  {
    if |ops| > 0 {
      assert Untouching(ops[0]);
      UntouchedOnce(f, ops[0]);
      hide Do, Untouching;
      UntouchedStays(Do(f, ops[0]), ops[1..]);
    }
  }

  lemma UntouchedOnce(f: Form, op: Op)
    requires Untouching(op)
    ensures var g := Do(f, op);
            && g.mode == f.mode && g.passwordTouched == f.passwordTouched
            && g.privateKeyTouched == f.privateKeyTouched && g.passphraseTouched == f.passphraseTouched
  {
    hide Validate, NormalizedPort, ResolveSecrets;
  }

  /** AN UNTOUCHED SECRET SURVIVES. Reopen a saved host, edit anything but its secrets, and whenever the auth kind is
    the stored one again a successful save emits the stored secrets unchanged. */
  lemma UntouchedSecretsSurvive(id: string, text: string, host: string, port: nat, username: string, isKey: bool,
                                password: Option<string>, key: Option<seq<byte>>, passphrase: Option<string>,
                                ops: seq<Op>, newId: string)
    requires forall i :: 0 <= i < |ops| ==> Untouching(ops[i])
    ensures var g := DoAll(Prefilled(id, text, host, port, username, isKey, password, key, passphrase), ops);
            var r := TrySave(g, newId).1;
            r.Ok? && g.isUsingKey == isKey ==>
              && r.value.id == id
              && (!isKey ==> r.value.password == password)
              && (isKey ==> r.value.privateKeyBase64.Some? && r.value.passphrase == passphrase
                            && Base64.Decode(r.value.privateKeyBase64.value) == Base64.Decoded(key))
  {
    var f := Prefilled(id, text, host, port, username, isKey, password, key, passphrase);
    EditsKeepHonest(f, ops);
    UntouchedStays(f, ops);
    hide NormalizedHost, NormalizedPort, Trim, Base64.Encode, Base64.Decode, DoAll;
    var g := DoAll(f, ops);
    if Validate(g).None? && g.isUsingKey == isKey && isKey { Base64.PlainDecodingInverts(key.value); }
  }

  /** A fresh key does not discard the stored passphrase of the key it replaces. */
  lemma StoredPassphraseOutlivesItsKey(f: Form, bytes: seq<byte>, newId: string)
    requires f.mode.Edit? && f.mode.originalAuth == PrivateKey && f.mode.existingPassphrase.Some?
    requires f.isUsingKey && !f.passphraseTouched && Validate(Do(f, SetPrivateKey(bytes))).None?
    ensures var r := TrySave(Do(f, SetPrivateKey(bytes)), newId).1;
            && r.Ok? && r.value.passphrase == f.mode.existingPassphrase
            && Base64.Decode(r.value.privateKeyBase64.value) == Base64.Decoded(Some(bytes))
  {
    hide NormalizedHost, NormalizedPort, Trim, Base64.Encode, Base64.Decode;
    Base64.PlainDecodingInverts(bytes);
  }

  // ---- saving, reopening, saving again ----

  function Reopened(o: SaveOutcome, key: Option<seq<byte>>): Form {
    Prefilled(o.id, o.label_, o.host, o.port, o.username, o.authIsKey, o.password, key, o.passphrase)
  }

  lemma StableAddress(host: string, port: nat)
    requires port <= 65535
    ensures (NormalizedHost(host) == host && NormalizedPort(host, PrintNat(port)) == Some(port))
            <==> Plain(host) && (EmbeddedPort(host).None? || EmbeddedPort(host) == Some(port))
  {
    PlainHostsStay(host);
    PrintedPortParses(port);
    hide NormalizedHost, EmbeddedPort, Plain, Trim, PrintNat, ParsePort;
  }

  /** The outcome of saving a reopened host, field by field. */
  lemma Resaved(o: SaveOutcome, key: Option<seq<byte>>, otherId: string)
    requires Trim(o.label_) == o.label_ && Trim(o.username) == o.username != "" && o.host != "" && o.port >= 1
    requires if o.authIsKey then o.password.None? && key.Some? && o.privateKeyBase64 == Some(Base64.Encode(key.value))
             else o.password.Some? && key.None? && o.privateKeyBase64.None? && o.passphrase.None?
    ensures TrySave(Reopened(o, key), otherId).1 == Ok(o)
            <==> NormalizedHost(o.host) == o.host && NormalizedPort(o.host, PrintNat(o.port)) == Some(o.port)
  {
    hide NormalizedHost, NormalizedPort, Trim, Base64.Encode, PrintNat;
  }

  lemma OutcomeIs(f: Form, newId: string, o: SaveOutcome)
    requires TrySave(f, newId).1 == Ok(o)
    ensures Trim(o.label_) == o.label_ && Trim(o.username) == o.username != "" && o.host != "" && 1 <= o.port <= 65535
    ensures if o.authIsKey then o.password.None? && o.privateKeyBase64.Some?
                                && exists bytes :: o.privateKeyBase64 == Some(Base64.Encode(bytes))
            else o.password.Some? && o.privateKeyBase64.None? && o.passphrase.None?
  {
    TrimTwice(f.label_);
    TrimTwice(f.username);
    hide NormalizedHost, NormalizedPort, Trim, Base64.Encode;
    if o.authIsKey { assert o.privateKeyBase64 == Some(Base64.Encode(ResolveSecrets(f).1.value)); }
  }

  /** RESAVING. Reopen what a save emitted and save it untouched: it comes out the same exactly when the stored host is
    one that the address parser takes as it stands, with no other port in it. */
  lemma ResavingIsStableExactlyWhen(f: Form, newId: string, o: SaveOutcome, key: Option<seq<byte>>, otherId: string)
    requires TrySave(f, newId).1 == Ok(o)
    requires if o.privateKeyBase64.None? then key.None?
             else Base64.Decode(o.privateKeyBase64.value) == Base64.Decoded(key)
    ensures TrySave(Reopened(o, key), otherId).1 == Ok(o)
            <==> Plain(o.host) && (EmbeddedPort(o.host).None? || EmbeddedPort(o.host) == Some(o.port))
  {
    hide *;
    OutcomeIs(f, newId, o);
    StableAddress(o.host, o.port);
    if o.authIsKey {
      var bytes :| o.privateKeyBase64 == Some(Base64.Encode(bytes));
      Base64.PlainDecodingInverts(bytes);
    }
    Resaved(o, key, otherId);
  }

  // ---- the object ----

  class ConnectFormVM {
    var mode: Mode
    var label_: string
    var host: string
    var port: string
    var username: string
    var isUsingKey: bool
    var password: string
    var privateKey: seq<byte>
    var passphrase: string
    var passwordTouched: bool
    var privateKeyTouched: bool
    var passphraseTouched: bool
    var errorMessage: Option<Problem>

    function State(): Form
      reads this
    {
      Form(mode, label_, host, port, username, isUsingKey, password, privateKey, passphrase,
           passwordTouched, privateKeyTouched, passphraseTouched, errorMessage)
    }

    constructor ()
      ensures State() == BLANK
    {
      mode, label_, host, port, username, isUsingKey := Add, "", "", "", "", false;
      password, privateKey, passphrase := "", [], "";
      passwordTouched, privateKeyTouched, passphraseTouched, errorMessage := false, false, false, None;
    }

    method ResetToAdd()
      modifies this
      ensures State() == BLANK.(port := "22")
    {
      mode, label_, host, port, username, isUsingKey := Add, "", "", "22", "", false;
      ClearSecrets();
    }

    method PrefillEdit(id: string, newLabel: string, newHost: string, newPort: nat, newUser: string, authIsKey: bool,
                       existingPassword: Option<string>, existingKey: Option<seq<byte>>, existingPass: Option<string>)
      modifies this
      ensures State() == Prefilled(id, newLabel, newHost, newPort, newUser, authIsKey, existingPassword, existingKey,
                                   existingPass)
    {
      hide PrintNat, AllDigits;
      mode := Edit(id, Kind(authIsKey), existingPassword, existingKey, existingPass);
      label_, host, port, username, isUsingKey := newLabel, newHost, PrintNat(newPort), newUser, authIsKey;
      ClearSecrets();
    }

    method ClearSecrets()
      modifies this`password, this`privateKey, this`passphrase, this`passwordTouched, this`privateKeyTouched,
               this`passphraseTouched, this`errorMessage
      ensures password == "" && privateKey == [] && passphrase == ""
      ensures !passwordTouched && !privateKeyTouched && !passphraseTouched && errorMessage == None
    {
      password, privateKey, passphrase := "", [], "";
      passwordTouched, privateKeyTouched, passphraseTouched, errorMessage := false, false, false, None;
    }

    /** The setters. */
    method Change(op: Op)
      requires !op.Save?
      modifies this
      ensures State() == Do(old(State()), op)
    {
      match op {
        case SetLabel(text) => label_ := text;
        case SetHost(text) => host := text;
        case SetPort(text) => port := text;
        case SetUsername(text) => username := text;
        case SetPassword(text) => password := text; passwordTouched := true;
        case SetPassphrase(text) => passphrase := text; passphraseTouched := true;
        case SetPrivateKey(bytes) => privateKey := bytes; privateKeyTouched := true;
        case SetUsingKey(isKey) => isUsingKey := isKey;
      }
    }

    method Save(newId: string) returns (r: Result<SaveOutcome, Problem>)
      modifies this`errorMessage
      ensures State() == Do(old(State()), Op.Save(newId)) && r == TrySave(old(State()), newId).1
    {
      hide NormalizedHost, NormalizedPort, Trim, Validate, ResolveSecrets;
      var problem := Validate(State());
      if problem.Some? {
        errorMessage := problem;
        return Err(problem.value);
      }
      ghost var f := State();
      errorMessage := None;
      var p := NormalizedPort(host, port);
      if p.None? { return Err(BadPort); }
      var secrets := ResolveSecrets(State());
      SecretsIgnoreErrors(f, State());
      var encoded: Option<seq<byte>> := None;
      if secrets.1.Some? {
        var text := Base64.EncodeBytes(secrets.1.value);
        encoded := Some(text);
      }
      r := Ok(SaveOutcome(if mode.Add? then newId else mode.id, Trim(label_), NormalizedHost(host), p.value,
                          Trim(username),
                          isUsingKey, if isUsingKey then None else secrets.0, if isUsingKey then encoded else None,
                          if isUsingKey then secrets.2 else None));
      ChosenFamilyOnly(f);
    }
  }

  lemma SecretsIgnoreErrors(f: Form, g: Form)
    requires g == f.(errorMessage := g.errorMessage)
    ensures ResolveSecrets(g) == ResolveSecrets(f)
  {
  }

  lemma ChosenFamilyOnly(f: Form)
    ensures var s := ResolveSecrets(f); if f.isUsingKey then s.0.None? else s.1.None? && s.2.None?
  {
  }
}
