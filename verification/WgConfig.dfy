/** The WireGuard config printer, and the scan that reads the endpoint back. */
module WgConfig {
  import opened Common
  import opened Texts

  datatype IPv6Mode = Off | Kill | On

  datatype AddKeyResult = AddKeyResult(
    peerIP: string, dnsServers: seq<string>, serverIP: string, serverPort: int, serverKey: string)

  datatype Generated = Config(text: string) | Invalid(reason: Reason)
  datatype Reason = BadPort | BadServerIP | NoDNS

  function AllowedIPs(mode: IPv6Mode): string {
    if mode == Off then "0.0.0.0/0" else "0.0.0.0/0, ::/0"
  }

  /** One line of the config. */
  function Setting(name: string, value: string): string {
    name + " = " + value
  }

  function RejectOutside(action: string): string {
    "ip6tables " + action + " OUTPUT ! -o %i -j REJECT"
  }

  function Hooks(mode: IPv6Mode): seq<string> {
    if mode == Kill then [Setting("PostUp", RejectOutside("-I")), Setting("PostDown", RejectOutside("-D"))] else []
  }

  function Interface(key: AddKeyResult, privateKey: string): seq<string>
    requires key.dnsServers != []
  {
    ["[Interface]", Setting("PrivateKey", privateKey), Setting("Address", key.peerIP)] +
    [Setting("DNS", key.dnsServers[0])]
  }

  function Peer(key: AddKeyResult, mode: IPv6Mode): seq<string> {
    ["[Peer]", Setting("PublicKey", key.serverKey), Setting("AllowedIPs", AllowedIPs(mode))]
  }

  function HeadLines(key: AddKeyResult, privateKey: string, mode: IPv6Mode): seq<string>
    requires key.dnsServers != []
  {
    Interface(key, privateKey) + Hooks(mode) + Peer(key, mode)
  }

  function EndpointLine(key: AddKeyResult): string
    requires key.serverPort >= 0
  {
    "Endpoint = " + key.serverIP + ":" + Digits(key.serverPort)
  }

  function Tail(serverCommonName: string): string {
    var alive := Setting("PersistentKeepalive", "25");
    if serverCommonName == "" then alive else alive + "\n" + Setting("# ServerCommonName", serverCommonName)
  }

  function Generate(key: AddKeyResult, privateKey: string, mode: IPv6Mode, serverCommonName: string): Generated {
    if key.serverPort <= 0 then Invalid(BadPort)
    else if Trim(key.serverIP) == "" then Invalid(BadServerIP)
    else if key.dnsServers == [] || Trim(key.dnsServers[0]) == "" then Invalid(NoDNS)
    else Config(Joined(HeadLines(key, privateKey, mode) + [EndpointLine(key)], Tail(serverCommonName)))
  }

  /** Lower case of the letters that matter to an ASCII word: the dotted capital I is one of them. */
  function Lower(c: char): char {
    if 'A' <= c <= 'Z' then c - 'A' + 'a'
    else if c as int == 0x130 then 'i'
    else c
  }

  function ToLower(s: string): string {
    seq(|s|, i requires 0 <= i < |s| => Lower(s[i]))
  }

  function FirstIndex(s: string, c: char): (i: nat)
    ensures i <= |s| && c !in s[..i] && (i < |s| ==> s[i] == c)
  {
    if s == "" || s[0] == c then 0
    else
      var i := 1 + FirstIndex(s[1..], c);
      assert s[..i] == [s[0]] + s[1..][..i - 1];
      i
  }

  /** The value of a line that names an endpoint. */
  function EndpointValue(line: string): Option<string> {
    var trimmed := Trim(line);
    var eq := FirstIndex(trimmed, '=');
    if HasPrefix(ToLower(trimmed), "endpoint") && eq < |trimmed| then Some(Trim(trimmed[eq + 1..])) else None
  }

  function FirstEndpoint(lines: seq<string>): string {
    if lines == [] then ""
    else
      var value := EndpointValue(lines[0]);
      if value.Some? then value.value else FirstEndpoint(lines[1..])
  }

  datatype Endpoint = Endpoint(value: string) | NoFile

  /** An unreadable file is an error; a file that names no endpoint is the empty answer. */
  function ParseEndpoint(file: Option<string>): Endpoint {
    if file.None? then NoFile else Endpoint(FirstEndpoint(Lines(file.value)))
  }

  lemma {:induction false} TrimRightIsPrefix(s: string)
    ensures TrimRight(s) <= s
    ensures s != "" && !IsSpace(s[0]) ==> TrimRight(s) != ""
  {
    if s != "" && IsSpace(s[|s| - 1]) {
      TrimRightIsPrefix(s[..|s| - 1]);
    }
  }

  /** A line that starts with another letter names no endpoint. */
  lemma OtherLine(line: string)
    requires line != "" && !IsSpace(line[0]) && Lower(line[0]) != 'e'
    ensures EndpointValue(line) == None
  {
    assert TrimLeft(line) == line;
    TrimRightIsPrefix(line);
    assert ToLower(Trim(line))[0] != 'e' == "endpoint"[0];
  }

  lemma {:induction false} EndpointComesFirst(head: seq<string>, line: string, more: seq<string>)
    requires forall l :: l in head ==> EndpointValue(l) == None
    requires EndpointValue(line).Some?
    ensures FirstEndpoint(head + [line] + more) == EndpointValue(line).value
  {
    if head == [] {
      assert (head + [line] + more)[0] == line;
    } else {
      assert (head + [line] + more)[0] == head[0];
      assert (head + [line] + more)[1..] == head[1..] + [line] + more;
      EndpointComesFirst(head[1..], line, more);
    }
  }

  lemma {:induction false} SplitAtFirst(name: string, c: char, rest: string)
    requires c !in name
    ensures FirstIndex(name + [c] + rest, c) == |name|
  {
    var s := name + [c] + rest;
    if name == "" {
      assert s[0] == c;
    } else {
      assert s[0] == name[0] && s[1..] == name[1..] + [c] + rest;
      SplitAtFirst(name[1..], c, rest);
    }
  }

  /** A padded text is trimmed up to the solid text that follows it. */
  lemma {:induction false} PaddedTrims(pad: char, a: string, solid: string)
    requires IsSpace(pad) && solid != "" && !IsSpace(solid[0]) && !IsSpace(solid[|solid| - 1])
    ensures Trim([pad] + (a + solid)) == TrimLeft(a) + solid
  {
    var s, kept := [pad] + (a + solid), TrimLeft(a) + solid;
    assert s[1..] == a + solid;
    TrimLeftOfConcat(a, solid);
    assert TrimLeft(s) == kept;
    assert kept[|kept| - 1] == solid[|solid| - 1];
    TrimRightKeeps(kept);
  }

  lemma Reassociate(a: string, b: string, c: string, d: string)
    ensures a + b + c + d == a + (b + (c + d))
  {
  }

  lemma {:induction false} TrimsToValue(ip: string, digits: string)
    requires digits != "" && !IsSpace(digits[|digits| - 1])
    ensures Trim(" " + ip + ":" + digits) == TrimLeft(ip) + ":" + digits
  {
    Reassociate([' '], ip, [':'], digits);
    Reassociate([], TrimLeft(ip), [':'], digits);
    PaddedTrims(' ', ip, [':'] + digits);
  }

  /** A trimmed line with the key before its first equals sign yields the trimmed rest. */
  lemma KeyedLine(name: string, value: string)
    requires Trim(name + "=" + value) == name + "=" + value
    requires '=' !in name && HasPrefix(ToLower(name), "endpoint")
    ensures EndpointValue(name + "=" + value) == Some(Trim(value))
  {
    var line := name + "=" + value;
    SplitAtFirst(name, '=', value);
    assert line[|name| + 1..] == value;
    assert ToLower(line)[..|name|] == ToLower(name);
  }

  lemma EndpointLineIsTrimmed(ip: string, digits: string)
    requires digits != "" && !IsSpace(digits[|digits| - 1])
    ensures var line := "Endpoint = " + ip + ":" + digits; Trim(line) == line
  {
    var line := "Endpoint = " + ip + ":" + digits;
    assert line[|line| - 1] == digits[|digits| - 1];
    assert TrimLeft(line) == line;
    TrimRightKeeps(line);
  }

  lemma EndpointLineParts(ip: string, digits: string)
    ensures "Endpoint = " + ip + ":" + digits == "Endpoint " + "=" + (" " + ip + ":" + digits)
  {
    assert "Endpoint = " == "Endpoint " + "=" + " ";
  }

  lemma EndpointIsTheKey()
    ensures '=' !in "Endpoint " && HasPrefix(ToLower("Endpoint "), "endpoint")
  {
    assert ToLower("Endpoint ")[..8] == "endpoint";
  }

  lemma {:induction false} EndpointLineIsRead(ip: string, digits: string)
    requires digits != "" && !IsSpace(digits[|digits| - 1])
    ensures EndpointValue("Endpoint = " + ip + ":" + digits) == Some(TrimLeft(ip) + ":" + digits)
  {
    EndpointLineParts(ip, digits);
    EndpointLineIsTrimmed(ip, digits);
    EndpointIsTheKey();
    KeyedLine("Endpoint ", " " + ip + ":" + digits);
    TrimsToValue(ip, digits);
  }

  /** Fields the server returned that stay on their own line. */
  predicate FieldsOfOneLine(key: AddKeyResult, privateKey: string) {
    OneLine(privateKey) && OneLine(key.peerIP) && OneLine(key.serverKey) && OneLine(key.serverIP) &&
    (key.dnsServers != [] ==> OneLine(key.dnsServers[0]))
  }

  /** Which inputs yield a config. */
  predicate Complete(key: AddKeyResult) {
    key.serverPort > 0 && Trim(key.serverIP) != "" && key.dnsServers != [] && Trim(key.dnsServers[0]) != ""
  }

  /** A piece that is one line and names no endpoint. */
  predicate Silent(line: string) {
    OneLine(line) && EndpointValue(line) == None
  }

  /** The start of a line no endpoint starts like. */
  predicate OtherName(name: string) {
    name != "" && (name[0] == '[' || 'A' <= name[0] <= 'D' || name[0] == 'P') && OneLine(name)
  }

  lemma OtherSetting(name: string, value: string)
    requires OtherName(name) && OneLine(value)
    ensures Silent(name) && Silent(Setting(name, value))
  {
    OtherLine(name);
    OtherLine(Setting(name, value));
  }

  ghost predicate AllSilent(lines: seq<string>) {
    forall l :: l in lines ==> Silent(l)
  }

  lemma SettingsAreSilent(a: string, x: string, b: string, y: string)
    requires OtherName(a) && OtherName(b) && OneLine(x) && OneLine(y)
    ensures AllSilent([Setting(a, x), Setting(b, y)])
  {
    OtherSetting(a, x);
    OtherSetting(b, y);
  }

  lemma SectionIsSilent(section: string, a: string, x: string, b: string, y: string)
    requires OtherName(section) && OtherName(a) && OtherName(b) && OneLine(x) && OneLine(y)
    ensures AllSilent([section, Setting(a, x), Setting(b, y)])
  {
    OtherSetting(section, "");
    OtherSetting(a, x);
    OtherSetting(b, y);
  }

  lemma InterfaceIsSilent(key: AddKeyResult, privateKey: string)
    requires key.dnsServers != [] && FieldsOfOneLine(key, privateKey)
    ensures AllSilent(Interface(key, privateKey))
  {
    SectionIsSilent("[Interface]", "PrivateKey", privateKey, "Address", key.peerIP);
    OtherSetting("DNS", key.dnsServers[0]);
  }

  lemma HooksAreSilent(mode: IPv6Mode)
    ensures AllSilent(Hooks(mode))
  {
    SettingsAreSilent("PostUp", RejectOutside("-I"), "PostDown", RejectOutside("-D"));
  }

  lemma PeerIsSilent(key: AddKeyResult, mode: IPv6Mode)
    requires OneLine(key.serverKey)
    ensures AllSilent(Peer(key, mode))
  {
    SectionIsSilent("[Peer]", "PublicKey", key.serverKey, "AllowedIPs", AllowedIPs(mode));
  }

  lemma HeadIsSilent(key: AddKeyResult, privateKey: string, mode: IPv6Mode)
    requires key.dnsServers != [] && FieldsOfOneLine(key, privateKey)
    ensures AllSilent(HeadLines(key, privateKey, mode))
  {
    InterfaceIsSilent(key, privateKey);
    HooksAreSilent(mode);
    PeerIsSilent(key, mode);
  }

  lemma EndpointLineIsOneLine(key: AddKeyResult)
    requires key.serverPort >= 0 && OneLine(key.serverIP)
    ensures OneLine(EndpointLine(key))
  {
    assert OneLine(Digits(key.serverPort));
  }

  /** For every IPv6 mode and server name, even one with newlines: the endpoint read back
      from a generated config is the server's address, less leading space, and its port. */
  lemma EndpointRoundTrip(key: AddKeyResult, privateKey: string, mode: IPv6Mode, serverCommonName: string)
    requires FieldsOfOneLine(key, privateKey)
    ensures Generate(key, privateKey, mode, serverCommonName).Config? <==> Complete(key)
    ensures Complete(key) ==>
      ParseEndpoint(Some(Generate(key, privateKey, mode, serverCommonName).text)) ==
      Endpoint(TrimLeft(key.serverIP) + ":" + Digits(key.serverPort))
  {
    if Complete(key) {
      var head, line, tail := HeadLines(key, privateKey, mode), EndpointLine(key), Tail(serverCommonName);
      var digits := Digits(key.serverPort);
      assert digits[|digits| - 1] in digits;
      HeadIsSilent(key, privateKey, mode);
      EndpointLineIsOneLine(key);
      LinesOfJoined(head + [line], tail);
      EndpointLineIsRead(key.serverIP, digits);
      EndpointComesFirst(head, line, Lines(tail));
    }
  }

  lemma SameSuffix(a: string, b: string, suffix: string)
    ensures a + suffix == b + suffix <==> a == b
  {
    if a + suffix == b + suffix {
      assert a == (a + suffix)[..|a|] && b == (b + suffix)[..|b|];
    }
  }

  /** The round trip is exact precisely when the address has no leading space. */
  lemma ExactUnlessLeadingSpace(key: AddKeyResult, privateKey: string, mode: IPv6Mode, serverCommonName: string)
    requires FieldsOfOneLine(key, privateKey) && Complete(key)
    ensures
      var read := ParseEndpoint(Some(Generate(key, privateKey, mode, serverCommonName).text));
      read == Endpoint(key.serverIP + ":" + Digits(key.serverPort)) <==> !IsSpace(key.serverIP[0])
  {
    EndpointRoundTrip(key, privateKey, mode, serverCommonName);
    TrimLeftShrinksOrKeeps(key.serverIP);
    var suffix := ":" + Digits(key.serverPort);
    var trimmed := TrimLeft(key.serverIP);
    assert trimmed + ":" + Digits(key.serverPort) == trimmed + suffix;
    assert key.serverIP + ":" + Digits(key.serverPort) == key.serverIP + suffix;
    SameSuffix(trimmed, key.serverIP, suffix);
  }
}
