/** The plugin's WireGuard file: `render_wg` writes it and `load_wireguard_config` reads it. */
module WireguardFile {
  import opened Lists
  import opened Options
  import opened Text

  /** The Hub's answer, with the keepalive already made an integer. */
  datatype Payload = Payload(interfaceAddress: string, serverPublicKey: string, endpoint: string, allowedIps: string, keepalive: int)

  /** What the file says: nothing usable, a keepalive that is no number, or a payload. */
  datatype Loaded = Missing | BadKeepalive | Loaded(payload: Payload)

  // ---------- Lines ----------

  /** Where `str.splitlines` breaks. */
  predicate IsBreak(c: char) {
    var n := c as int;
    10 <= n <= 13 || 28 <= n <= 30 || n == 0x85 || n == 0x2028 || n == 0x2029
  }

  function LineEnd(s: string): (i: nat)
    ensures i <= |s| && (i < |s| ==> IsBreak(s[i])) && forall k :: 0 <= k < i ==> !IsBreak(s[k])
  {
    if s == [] || IsBreak(s[0]) then 0 else 1 + LineEnd(s[1..])
  }

  function SplitLines(s: string): seq<string> {
    if s == [] then []
    else
      var i := LineEnd(s);
      if i == |s| then [s]
      else if s[i] == '\r' && i + 1 < |s| && s[i+1] == '\n' then [s[..i]] + SplitLines(s[i+2..])
      else [s[..i]] + SplitLines(s[i+1..])
  }

  predicate OneLine(s: string) {
    forall i :: 0 <= i < |s| ==> !IsBreak(s[i])
  }

  /** Each line followed by a newline. */
  function Unlines(lines: seq<string>): string {
    if lines == [] then [] else lines[0] + "\n" + Unlines(lines[1..])
  }

  lemma {:induction false} SplitUnlines(lines: seq<string>)
    requires forall i :: 0 <= i < |lines| ==> OneLine(lines[i])
    ensures SplitLines(Unlines(lines)) == lines
  {
    if lines != [] {
      SplitUnlines(lines[1..]);
      var s, n := Unlines(lines), |lines[0]|;
      assert s[n] == '\n' && s[..n] == lines[0] && s[n+1..] == Unlines(lines[1..]);
      assert OneLine(lines[0]);
      assert forall k :: 0 <= k < n ==> s[k] == lines[0][k];
      assert LineEnd(s) == n;
    }
  }

  // ---------- Settings ----------

  datatype Field = PrivateKey | Address | PublicKey | Endpoint | AllowedIps | PersistentKeepalive

  /** How the file spells a field. The longest texts are written in pieces, which the verifier takes
      one at a time. */
  function Name(f: Field): string {
    match f
    case PrivateKey => "PrivateKey"
    case Address => "Address"
    case PublicKey => "PublicKey"
    case Endpoint => "Endpoint"
    case AllowedIps => "AllowedIPs"
    case PersistentKeepalive => "Persistent" + "Keepalive"
  }

  /** How the loader looks it up. */
  function Key(f: Field): string {
    match f
    case PrivateKey => "privatekey"
    case Address => "address"
    case PublicKey => "publickey"
    case Endpoint => "endpoint"
    case AllowedIps => "allowedips"
    case PersistentKeepalive => "persistent" + "keepalive"
  }

  datatype Setting = Setting(key: string, value: string)

  /** A line with `=` gives a lower-case key and a value, split at the first `=`. */
  function ParseLine(line: string): Option<Setting> {
    var i := First(line, c => c == '=');
    if i == |line| then None else Some(Setting(Lower(Strip(line[..i])), Strip(line[i+1..])))
  }

  function ParseAll(lines: seq<string>): (parsed: seq<Option<Setting>>)
    ensures |parsed| == |lines| && forall i :: 0 <= i < |lines| ==> parsed[i] == ParseLine(lines[i])
  {
    if lines == [] then [] else [ParseLine(lines[0])] + ParseAll(lines[1..])
  }

  /** Later settings overwrite earlier ones. */
  function Values(parsed: seq<Option<Setting>>): map<string, string> {
    if parsed == [] then map[]
    else
      var values := Values(parsed[..|parsed|-1]);
      match parsed[|parsed|-1]
      case None => values
      case Some(setting) => values[setting.key := setting.value]
  }

  function ValueOf(values: map<string, string>, f: Field, default: string): string {
    if Key(f) in values then values[Key(f)] else default
  }

  /** A payload out of the texts that were found; the first four are required. */
  function FromTexts(address: string, publicKey: string, endpoint: string, allowedIps: string, keepalive: string): Loaded {
    if address == "" || publicKey == "" || endpoint == "" || allowedIps == "" then Missing
    else
      match ReadInt(keepalive)
      case None => BadKeepalive
      case Some(n) => Loaded(Payload(address, publicKey, endpoint, allowedIps, n))
  }

  function FromValues(values: map<string, string>): Loaded {
    FromTexts(ValueOf(values, Address, ""), ValueOf(values, PublicKey, ""), ValueOf(values, Endpoint, ""),
              ValueOf(values, AllowedIps, ""), ValueOf(values, PersistentKeepalive, "25"))
  }

  /** `load_wireguard_config`; `None` is a file that does not exist. */
  function Load(file: Option<string>): Loaded {
    match file case None => Missing case Some(text) => FromValues(Values(ParseAll(SplitLines(text))))
  }

  datatype Line = Plain(text: string) | Define(field: Field, value: string)

  function Written(line: Line): string {
    match line case Plain(text) => text case Define(field, value) => Name(field) + " = " + value
  }

  function WrittenAll(lines: seq<Line>): (written: seq<string>)
    ensures |written| == |lines| && forall i :: 0 <= i < |lines| ==> written[i] == Written(lines[i])
  {
    if lines == [] then [] else [Written(lines[0])] + WrittenAll(lines[1..])
  }

  const COMMENT_1 := "# OPNsense Hub is " + "management-only. " + "This must remain " + "the Hub tunnel /32,"
  const COMMENT_2 := "# never a " + "customer LAN subnet."

  function FileLines(privateKey: string, p: Payload): seq<Line> {
    [ Plain("[Interface]"),
      Define(PrivateKey, privateKey),
      Define(Address, p.interfaceAddress),
      Plain(""),
      Plain("[Peer]"),
      Define(PublicKey, p.serverPublicKey),
      Define(Endpoint, p.endpoint),
      Plain(COMMENT_1),
      Plain(COMMENT_2),
      Define(AllowedIps, p.allowedIps),
      Define(PersistentKeepalive, Show(p.keepalive))]
  }

  function RenderLines(lines: seq<Line>): string {
    Unlines(WrittenAll(lines))
  }

  /** `render_wg` */
  function Render(privateKey: string, p: Payload): string {
    RenderLines(FileLines(privateKey, p))
  }

  // ---------- One line, written and read back ----------

  lemma StripPadded(s: string)
    ensures Strip(" " + s) == Strip(s)
    ensures Trimmed(s) ==> Strip(s + " ") == s
  {
    assert (" " + s)[1..] == s;
    if Trimmed(s) {
      if s == [] {
        assert s + " " == " " && " "[1..] == [];
      } else {
        assert StripLeft(s + " ") == s + " ";
        assert (s + " ")[..|s|] == s;
      }
    }
  }

  lemma {:induction false} LowerAt(s: string)
    ensures |Lower(s)| == |s| && forall i :: 0 <= i < |s| ==> Lower(s)[i] == if 'A' <= s[i] <= 'Z' then (s[i] as int + 32) as char else s[i]
  {
    if s != [] {
      LowerAt(s[1..]);
    }
  }

  lemma LowerAppend(s: string, t: string)
    ensures Lower(s + t) == Lower(s) + Lower(t)
  {
    var all, parts := Lower(s + t), Lower(s) + Lower(t);
    LowerAt(s);
    LowerAt(t);
    LowerAt(s + t);
    assert forall i :: 0 <= i < |s + t| ==> all[i] == parts[i];
  }

  lemma LowerPersistent()
    ensures Lower("Persistent") == "persistent"
  {
    LowerAt("Persistent");
  }

  lemma LowerKeepalive()
    ensures Lower("Keepalive") == "keepalive"
  {
    LowerAt("Keepalive");
  }

  lemma LowerPrivateKey()
    ensures Lower("PrivateKey") == "privatekey"
  {
    LowerAt("PrivateKey");
  }

  lemma LowerPublicKey()
    ensures Lower("PublicKey") == "publickey"
  {
    LowerAt("PublicKey");
  }

  lemma LowerAllowedIps()
    ensures Lower("AllowedIPs") == "allowedips"
  {
    LowerAt("AllowedIPs");
  }

  lemma NameIsKey(f: Field)
    ensures Lower(Name(f)) == Key(f)
  {
    match f
    case PersistentKeepalive =>
      LowerPersistent();
      LowerKeepalive();
      LowerAppend("Persistent", "Keepalive");
    case PrivateKey => LowerPrivateKey();
    case AllowedIps => LowerAllowedIps();
    case PublicKey => LowerPublicKey();
    case _ => LowerAt(Name(f));
  }

  lemma NameIsPlain(f: Field)
    ensures Trimmed(Name(f)) && '=' !in Name(f) && forall i :: 0 <= i < |Name(f)| ==> !IsBreak(Name(f)[i])
  {
  }

  lemma KeysDiffer(f: Field, g: Field)
    requires Key(f) == Key(g)
    ensures f == g
  {
    assert |Key(f)| == match f case PrivateKey => 10 case Address => 7 case PublicKey => 9 case Endpoint => 8 case AllowedIps => 10 case PersistentKeepalive => 19;
    assert |Key(g)| == match g case PrivateKey => 10 case Address => 7 case PublicKey => 9 case Endpoint => 8 case AllowedIps => 10 case PersistentKeepalive => 19;
    assert Key(PrivateKey)[0] == 'p' && Key(AllowedIps)[0] == 'a';
  }

  lemma KeyValue(name: string, value: string)
    requires Trimmed(name) && '=' !in name
    ensures ParseLine(name + " = " + value) == Some(Setting(Lower(name), Strip(value)))
  {
    var line := name + " = " + value;
    var n := |name| + 1;
    EqualsSignAt(name, value);
    assert line[..n] == name + " " && line[n+1..] == " " + value;
    StripPadded(name);
    StripPadded(value);
  }

  lemma EqualsSignAt(name: string, value: string)
    requires '=' !in name
    ensures First(name + " = " + value, c => c == '=') == |name| + 1
  {
    var line := name + " = " + value;
    assert forall k :: 0 <= k < |name| ==> line[k] == name[k] && name[k] != '=';
    assert line[|name|] == ' ' && line[|name|+1] == '=';
    FirstIs(line, c => c == '=', |name| + 1);
  }

  /** What a line means to the loader. */
  function Meaning(line: Line): Option<Setting> {
    match line case Plain(_) => None case Define(field, value) => Some(Setting(Key(field), Strip(value)))
  }

  lemma WrittenMeans(line: Line)
    requires line.Plain? ==> '=' !in line.text
    ensures ParseLine(Written(line)) == Meaning(line)
  {
    if line.Define? {
      NameIsPlain(line.field);
      NameIsKey(line.field);
      KeyValue(Name(line.field), line.value);
    }
  }

  lemma {:induction false} LastDefinition(parsed: seq<Option<Setting>>, i: nat)
    requires i < |parsed| && parsed[i].Some?
    requires forall k :: i < k < |parsed| && parsed[k].Some? ==> parsed[k].value.key != parsed[i].value.key
    ensures parsed[i].value.key in Values(parsed) && Values(parsed)[parsed[i].value.key] == parsed[i].value.value
  {
    if i < |parsed| - 1 {
      LastDefinition(parsed[..|parsed|-1], i);
    }
  }

  // ---------- The file, written and read back ----------

  predicate OneLines(privateKey: string, p: Payload) {
    OneLine(privateKey) && OneLine(p.interfaceAddress) && OneLine(p.serverPublicKey) && OneLine(p.endpoint) && OneLine(p.allowedIps)
  }

  predicate IsPlain(text: string) {
    '=' !in text && OneLine(text)
  }

  lemma PlainParts(a: string, b: string)
    requires IsPlain(a) && IsPlain(b)
    ensures IsPlain(a + b)
  {
  }

  lemma FirstWordsArePlain()
    ensures IsPlain("# OPNsense Hub is ") && IsPlain("management-only. ")
  {
  }

  lemma MoreWordsArePlain()
    ensures IsPlain("This must remain ") && IsPlain("the Hub tunnel /32,")
  {
  }

  lemma LastWordsArePlain()
    ensures IsPlain("# never a ") && IsPlain("customer LAN subnet.")
  {
  }

  lemma CommentsArePlain()
    ensures IsPlain(COMMENT_1) && IsPlain(COMMENT_2)
  {
    FirstWordsArePlain();
    MoreWordsArePlain();
    LastWordsArePlain();
    var first := "# OPNsense Hub is " + "management-only. ";
    PlainParts("# OPNsense Hub is ", "management-only. ");
    PlainParts(first, "This must remain ");
    PlainParts(first + "This must remain ", "the Hub tunnel /32,");
    PlainParts("# never a ", "customer LAN subnet.");
  }

  lemma HeadersArePlain()
    ensures IsPlain("[Interface]") && IsPlain("[Peer]") && IsPlain("")
  {
  }

  lemma ShownIsTrimmed(n: int)
    ensures OneLine(Show(n)) && Strip(Show(n)) == Show(n)
  {
    StripOfTrimmed(Show(n));
  }

  /** Which field a line of the file defines, and what it says. */
  function FieldValue(privateKey: string, p: Payload, f: Field): string {
    match f
    case PrivateKey => privateKey
    case Address => p.interfaceAddress
    case PublicKey => p.serverPublicKey
    case Endpoint => p.endpoint
    case AllowedIps => p.allowedIps
    case PersistentKeepalive => Show(p.keepalive)
  }

  function Place(f: Field): nat {
    match f case PrivateKey => 1 case Address => 2 case PublicKey => 5 case Endpoint => 6 case AllowedIps => 9 case PersistentKeepalive => 10
  }

  lemma FileLine(privateKey: string, p: Payload, i: nat)
    requires i < 11
    ensures |FileLines(privateKey, p)| == 11
    ensures var line := FileLines(privateKey, p)[i];
      match line
      case Plain(text) => IsPlain(text) && forall f :: Place(f) != i
      case Define(f, value) => Place(f) == i && value == FieldValue(privateKey, p, f)
  {
    HeadersArePlain();
    CommentsArePlain();
  }

  lemma WrittenIsOneLine(line: Line)
    requires OneLine(match line case Plain(text) => text case Define(_, value) => value)
    ensures OneLine(Written(line))
  {
    if line.Define? {
      NameIsPlain(line.field);
    }
  }

  predicate Readable(line: Line) {
    match line case Plain(text) => IsPlain(text) case Define(_, value) => OneLine(value)
  }

  lemma LinesRead(lines: seq<Line>)
    requires forall i :: 0 <= i < |lines| ==> Readable(lines[i])
    ensures var parsed := ParseAll(SplitLines(RenderLines(lines)));
      |parsed| == |lines| && forall i :: 0 <= i < |lines| ==> parsed[i] == Meaning(lines[i])
  {
    forall i | 0 <= i < |lines| ensures OneLine(WrittenAll(lines)[i]) && ParseLine(WrittenAll(lines)[i]) == Meaning(lines[i]) {
      WrittenIsOneLine(lines[i]);
      WrittenMeans(lines[i]);
    }
    SplitUnlines(WrittenAll(lines));
  }

  /** The last line that defines a field gives its value, stripped. */
  lemma FieldReads(lines: seq<Line>, i: nat)
    requires forall k :: 0 <= k < |lines| ==> Readable(lines[k])
    requires i < |lines| && lines[i].Define? && forall k :: i < k < |lines| && lines[k].Define? ==> lines[k].field != lines[i].field
    ensures var values := Values(ParseAll(SplitLines(RenderLines(lines)))); var key := Key(lines[i].field);
      key in values && values[key] == Strip(lines[i].value)
  {
    var parsed := ParseAll(SplitLines(RenderLines(lines)));
    LinesRead(lines);
    forall k | i < k < |parsed| && parsed[k].Some? ensures parsed[k].value.key != parsed[i].value.key {
      if parsed[k].value.key == parsed[i].value.key {
        KeysDiffer(lines[k].field, lines[i].field);
      }
    }
    LastDefinition(parsed, i);
  }

  /** The lines of the file, told apart from their text. */
  ghost predicate IsFile(lines: seq<Line>, privateKey: string, p: Payload) {
    && |lines| == 11
    && (forall i :: 0 <= i < 11 ==> Readable(lines[i]))
    && (forall f :: lines[Place(f)] == Define(f, FieldValue(privateKey, p, f)))
    && (forall i, f :: 0 <= i < 11 && lines[i].Define? && lines[i].field == f ==> i == Place(f))
  }

  lemma FileIs(privateKey: string, p: Payload)
    requires OneLines(privateKey, p)
    ensures IsFile(FileLines(privateKey, p), privateKey, p)
  {
    var lines := FileLines(privateKey, p);
    ShownIsTrimmed(p.keepalive);
    forall i | 0 <= i < 11 ensures Readable(lines[i]) {
      FileLine(privateKey, p, i);
    }
    forall i, f | 0 <= i < 11 && lines[i].Define? && lines[i].field == f ensures i == Place(f) {
      FileLine(privateKey, p, i);
    }
  }

  lemma FileReads(lines: seq<Line>, privateKey: string, p: Payload)
    requires IsFile(lines, privateKey, p)
    ensures var values := Values(ParseAll(SplitLines(RenderLines(lines))));
      forall f :: Key(f) in values && values[Key(f)] == Strip(FieldValue(privateKey, p, f))
  {
    forall f ensures Key(f) in Values(ParseAll(SplitLines(RenderLines(lines))))
      && Values(ParseAll(SplitLines(RenderLines(lines))))[Key(f)] == Strip(FieldValue(privateKey, p, f))
    {
      FieldReads(lines, Place(f));
    }
  }

  lemma FieldIs(values: map<string, string>, privateKey: string, p: Payload, f: Field, default: string)
    requires Key(f) in values && values[Key(f)] == Strip(FieldValue(privateKey, p, f))
    ensures ValueOf(values, f, default) == Strip(FieldValue(privateKey, p, f))
  {
  }

  /** What the loader makes of the fields. */
  lemma LoadedFrom(values: map<string, string>, privateKey: string, p: Payload)
    requires forall f :: Key(f) in values && values[Key(f)] == Strip(FieldValue(privateKey, p, f))
    ensures FromValues(values) == Expected(p)
  {
    ShownIsTrimmed(p.keepalive);
    ReadShow(p.keepalive);
    FieldIs(values, privateKey, p, Address, "");
    FieldIs(values, privateKey, p, PublicKey, "");
    FieldIs(values, privateKey, p, Endpoint, "");
    FieldIs(values, privateKey, p, AllowedIps, "");
    FieldIs(values, privateKey, p, PersistentKeepalive, "25");
    TextsLoad(p, Show(p.keepalive));
  }

  lemma TextsLoad(p: Payload, keepalive: string)
    requires ReadInt(keepalive) == Some(p.keepalive)
    ensures FromTexts(Strip(p.interfaceAddress), Strip(p.serverPublicKey), Strip(p.endpoint), Strip(p.allowedIps), keepalive) == Expected(p)
  {
  }

  predicate Blank(p: Payload) {
    Strip(p.interfaceAddress) == "" || Strip(p.serverPublicKey) == "" || Strip(p.endpoint) == "" || Strip(p.allowedIps) == ""
  }

  function Expected(p: Payload): Loaded {
    if Blank(p) then Missing
    else Loaded(Payload(Strip(p.interfaceAddress), Strip(p.serverPublicKey), Strip(p.endpoint), Strip(p.allowedIps), p.keepalive))
  }

  /** Loading a rendered file gives the stripped values, or nothing when a required one is blank:
      `=` signs in keys and the comment lines between them do no harm. */
  lemma LoadsWhatWasRendered(privateKey: string, p: Payload)
    requires OneLines(privateKey, p)
    ensures Load(Some(Render(privateKey, p))) == Expected(p)
  {
    FileIs(privateKey, p);
    FileReads(FileLines(privateKey, p), privateKey, p);
    LoadedFrom(Values(ParseAll(SplitLines(Render(privateKey, p)))), privateKey, p);
  }

  predicate Usable(value: string) {
    value != "" && Trimmed(value)
  }

  /** All five fields come back exactly when the four texts are trimmed and not empty. */
  lemma RoundTrip(privateKey: string, p: Payload)
    requires OneLines(privateKey, p)
    ensures Load(Some(Render(privateKey, p))) == Loaded(p)
      <==> Usable(p.interfaceAddress) && Usable(p.serverPublicKey) && Usable(p.endpoint) && Usable(p.allowedIps)
  {
    LoadsWhatWasRendered(privateKey, p);
    StripIsSame(p.interfaceAddress);
    StripIsSame(p.serverPublicKey);
    StripIsSame(p.endpoint);
    StripIsSame(p.allowedIps);
  }

  lemma StripIsSame(s: string)
    ensures Strip(s) == s <==> Trimmed(s)
  {
    StripTrims(s);
    if Trimmed(s) {
      StripOfTrimmed(s);
    }
  }

  /** The loader's loop over the lines. */
  method LoadWireguardConfig(file: Option<string>) returns (loaded: Loaded)
    ensures loaded == Load(file)
  {
    if file.None? {
      return Missing;
    }
    var lines := SplitLines(file.value);
    var values := CollectValues(lines);
    loaded := FromValues(values);
  }

  method CollectValues(lines: seq<string>) returns (values: map<string, string>)
    ensures values == Values(ParseAll(lines))
  {
    ghost var parsed := ParseAll(lines);
    values := map[];
    for i := 0 to |lines|
      invariant values == Values(parsed[..i])
    {
      assert parsed[..i+1][..i] == parsed[..i];
      var setting := ParseLine(lines[i]);
      if setting.None? {
        continue;
      }
      values := values[setting.value.key := setting.value.value];
    }
    assert parsed[..|lines|] == parsed;
  }
}
