/** Reading the settings of a generated configuration back. */
module WgReadBack {
  import opened Common
  import opened Texts
  import opened WgConfig

  /** The value of the first line that sets the name. */
  function ValueOf(lines: seq<string>, name: string): Option<string> {
    if lines == [] then None
    else if HasPrefix(lines[0], name + " = ") then Some(lines[0][|name| + 3..])
    else ValueOf(lines[1..], name)
  }

  /** Two texts already differ within their first two characters. */
  predicate Apart(line: string, name: string) {
    |line| >= 2 && |name| >= 2 && (line[0] != name[0] || line[1] != name[1])
  }

  /** The line does not set the name. */
  predicate Unset(line: string, name: string) {
    !HasPrefix(line, name + " = ")
  }

  lemma ApartIsUnset(line: string, name: string)
    requires Apart(line, name)
    ensures Unset(line, name)
  {
    assert (name + " = ")[0] == name[0] && (name + " = ")[1] == name[1];
  }

  lemma SettingIsUnset(other: string, value: string, name: string)
    requires Apart(other, name)
    ensures Unset(Setting(other, value), name)
  {
    ApartIsUnset(Setting(other, value), name);
  }

  lemma ReadsOwn(name: string, value: string)
    ensures HasPrefix(Setting(name, value), name + " = ")
    ensures Setting(name, value)[|name| + 3..] == value
  {
    assert Setting(name, value) == (name + " = ") + value;
  }

  ghost predicate AllUnset(lines: seq<string>, name: string) {
    forall i | 0 <= i < |lines| :: Unset(lines[i], name)
  }

  lemma {:induction false} ReadsFirst(before: seq<string>, name: string, value: string, after: seq<string>)
    requires AllUnset(before, name)
    ensures ValueOf(before + [Setting(name, value)] + after, name) == Some(value)
  {
    var lines := before + [Setting(name, value)] + after;
    if before == [] {
      assert lines[0] == Setting(name, value);
      ReadsOwn(name, value);
    } else {
      assert lines[0] == before[0] && lines[1..] == before[1..] + [Setting(name, value)] + after;
      assert Unset(before[0], name);
      ReadsFirst(before[1..], name, value, after);
    }
  }

  lemma {:induction false} ReadsNone(lines: seq<string>, name: string)
    requires AllUnset(lines, name)
    ensures ValueOf(lines, name) == None
  {
    if lines != [] {
      assert Unset(lines[0], name);
      ReadsNone(lines[1..], name);
    }
  }

  // ----- The lines of a generated configuration -----

  /** The lines from the endpoint on. */
  function After(key: AddKeyResult, serverCommonName: string): seq<string>
    requires key.serverPort >= 0
  {
    [EndpointLine(key)] + Lines(Tail(serverCommonName))
  }

  lemma Regroup(a: seq<string>, b: seq<string>, c: seq<string>)
    ensures a + b + c == a + (b + c)
  {
  }

  /** The lines up to the endpoint, and those after it. */
  lemma {:induction false} ConfigLines(key: AddKeyResult, privateKey: string, mode: IPv6Mode, serverCommonName: string)
    requires FieldsOfOneLine(key, privateKey) && Complete(key)
    ensures Lines(Generate(key, privateKey, mode, serverCommonName).text) ==
            HeadLines(key, privateKey, mode) + After(key, serverCommonName)
  {
    HeadIsSilent(key, privateKey, mode);
    EndpointLineIsOneLine(key);
    LinesOfJoined(HeadLines(key, privateKey, mode) + [EndpointLine(key)], Tail(serverCommonName));
    Regroup(HeadLines(key, privateKey, mode), [EndpointLine(key)], Lines(Tail(serverCommonName)));
  }

  lemma InterfaceIsUnset(key: AddKeyResult, privateKey: string, name: string)
    requires key.dnsServers != [] && Apart("[Interface]", name)
    requires Apart("PrivateKey", name) && Apart("Address", name) && Apart("DNS", name)
    ensures AllUnset(Interface(key, privateKey), name)
  {
    ApartIsUnset("[Interface]", name);
    SettingIsUnset("PrivateKey", privateKey, name);
    SettingIsUnset("Address", key.peerIP, name);
    SettingIsUnset("DNS", key.dnsServers[0], name);
  }

  lemma HooksAreUnset(mode: IPv6Mode, name: string)
    requires Apart("PostUp", name) && Apart("PostDown", name)
    ensures AllUnset(Hooks(mode), name)
  {
    SettingIsUnset("PostUp", RejectOutside("-I"), name);
    SettingIsUnset("PostDown", RejectOutside("-D"), name);
  }

  lemma {:induction false} ReadsPrivateKey(key: AddKeyResult, privateKey: string, after: seq<string>)
    requires key.dnsServers != []
    ensures ValueOf(Interface(key, privateKey) + after, "PrivateKey") == Some(privateKey)
  {
    ApartIsUnset("[Interface]", "PrivateKey");
    var rest := [Setting("Address", key.peerIP), Setting("DNS", key.dnsServers[0])];
    ReadsFirst(["[Interface]"], "PrivateKey", privateKey, rest + after);
    assert Interface(key, privateKey) + after ==
           ["[Interface]"] + [Setting("PrivateKey", privateKey)] + (rest + after);
  }

  lemma {:induction false} ReadsAddress(key: AddKeyResult, privateKey: string, after: seq<string>)
    requires key.dnsServers != []
    ensures ValueOf(Interface(key, privateKey) + after, "Address") == Some(key.peerIP)
  {
    var before, rest := ["[Interface]", Setting("PrivateKey", privateKey)], [Setting("DNS", key.dnsServers[0])];
    ApartIsUnset("[Interface]", "Address");
    SettingIsUnset("PrivateKey", privateKey, "Address");
    ReadsFirst(before, "Address", key.peerIP, rest + after);
    assert Interface(key, privateKey) + after == before + [Setting("Address", key.peerIP)] + (rest + after);
  }

  lemma {:induction false} ReadsDNS(key: AddKeyResult, privateKey: string, after: seq<string>)
    requires key.dnsServers != []
    ensures ValueOf(Interface(key, privateKey) + after, "DNS") == Some(key.dnsServers[0])
  {
    var before := ["[Interface]", Setting("PrivateKey", privateKey), Setting("Address", key.peerIP)];
    ApartIsUnset("[Interface]", "DNS");
    SettingIsUnset("PrivateKey", privateKey, "DNS");
    SettingIsUnset("Address", key.peerIP, "DNS");
    ReadsFirst(before, "DNS", key.dnsServers[0], after);
    assert Interface(key, privateKey) + after == before + [Setting("DNS", key.dnsServers[0])] + after;
  }

  lemma JoinUnset(a: seq<string>, b: seq<string>, name: string)
    requires AllUnset(a, name) && AllUnset(b, name)
    ensures AllUnset(a + b, name)
  {
  }

  lemma {:induction false} ReadsPublicKey(key: AddKeyResult, privateKey: string, mode: IPv6Mode, after: seq<string>)
    requires key.dnsServers != []
    ensures ValueOf(HeadLines(key, privateKey, mode) + after, "PublicKey") == Some(key.serverKey)
  {
    var first := Interface(key, privateKey) + Hooks(mode);
    var before, rest := first + ["[Peer]"], [Setting("AllowedIPs", WgConfig.AllowedIPs(mode))];
    InterfaceIsUnset(key, privateKey, "PublicKey");
    HooksAreUnset(mode, "PublicKey");
    ApartIsUnset("[Peer]", "PublicKey");
    JoinUnset(Interface(key, privateKey), Hooks(mode), "PublicKey");
    JoinUnset(first, ["[Peer]"], "PublicKey");
    ReadsFirst(before, "PublicKey", key.serverKey, rest + after);
    assert HeadLines(key, privateKey, mode) + after ==
           before + [Setting("PublicKey", key.serverKey)] + (rest + after);
  }

  lemma {:induction false} ReadsAllowedIPs(key: AddKeyResult, privateKey: string, mode: IPv6Mode, after: seq<string>)
    requires key.dnsServers != []
    ensures ValueOf(HeadLines(key, privateKey, mode) + after, "AllowedIPs") == Some(WgConfig.AllowedIPs(mode))
  {
    var first := Interface(key, privateKey) + Hooks(mode);
    var peer := ["[Peer]", Setting("PublicKey", key.serverKey)];
    InterfaceIsUnset(key, privateKey, "AllowedIPs");
    HooksAreUnset(mode, "AllowedIPs");
    ApartIsUnset("[Peer]", "AllowedIPs");
    SettingIsUnset("PublicKey", key.serverKey, "AllowedIPs");
    JoinUnset(Interface(key, privateKey), Hooks(mode), "AllowedIPs");
    JoinUnset(first, peer, "AllowedIPs");
    ReadsFirst(first + peer, "AllowedIPs", WgConfig.AllowedIPs(mode), after);
    assert HeadLines(key, privateKey, mode) + after ==
           (first + peer) + [Setting("AllowedIPs", WgConfig.AllowedIPs(mode))] + after;
  }

  /** Each setting of the interface and the peer. */
  ghost predicate ReadsBack(lines: seq<string>, key: AddKeyResult, privateKey: string, mode: IPv6Mode)
    requires key.dnsServers != []
  {
    && ValueOf(lines, "PrivateKey") == Some(privateKey)
    && ValueOf(lines, "Address") == Some(key.peerIP)
    && ValueOf(lines, "DNS") == Some(key.dnsServers[0])
    && ValueOf(lines, "PublicKey") == Some(key.serverKey)
    && ValueOf(lines, "AllowedIPs") == Some(WgConfig.AllowedIPs(mode))
  }

  lemma HeadJoins(key: AddKeyResult, privateKey: string, mode: IPv6Mode, after: seq<string>)
    requires key.dnsServers != []
    ensures HeadLines(key, privateKey, mode) + after ==
            Interface(key, privateKey) + (Hooks(mode) + Peer(key, mode) + after)
  {
    Regroup(Interface(key, privateKey), Hooks(mode), Peer(key, mode));
    Regroup(Interface(key, privateKey), Hooks(mode) + Peer(key, mode), after);
  }

  lemma {:induction false} HeadReadsBack(key: AddKeyResult, privateKey: string, mode: IPv6Mode, after: seq<string>)
    requires key.dnsServers != []
    ensures ReadsBack(HeadLines(key, privateKey, mode) + after, key, privateKey, mode)
  {
    var rest := Hooks(mode) + Peer(key, mode) + after;
    ReadsPrivateKey(key, privateKey, rest);
    ReadsAddress(key, privateKey, rest);
    ReadsDNS(key, privateKey, rest);
    ReadsPublicKey(key, privateKey, mode, after);
    ReadsAllowedIPs(key, privateKey, mode, after);
    HeadJoins(key, privateKey, mode, after);
  }

  /** What is read back from a generated configuration is what went in, and the routes of
      its mode. */
  lemma {:induction false} SettingsReadBack(key: AddKeyResult, privateKey: string, mode: IPv6Mode,
                                            serverCommonName: string)
    requires FieldsOfOneLine(key, privateKey) && Complete(key)
    ensures ReadsBack(Lines(Generate(key, privateKey, mode, serverCommonName).text), key, privateKey, mode)
  {
    ConfigLines(key, privateKey, mode, serverCommonName);
    HeadReadsBack(key, privateKey, mode, After(key, serverCommonName));
  }

  /** All of IPv4, and all of IPv6 too unless the mode is off. */
  lemma RoutesExactly(mode: IPv6Mode)
    ensures WgConfig.AllowedIPs(mode) == (if mode == Off then "0.0.0.0/0" else "0.0.0.0/0, ::/0")
  {
  }

  // ----- The killswitch -----

  lemma UpIsNotDown(up: string)
    ensures Unset(Setting("PostUp", up), "PostDown")
  {
    assert Setting("PostUp", up)[4] == 'U' && ("PostDown" + " = ")[4] == 'D';
  }

  lemma {:induction false} KillHooks(key: AddKeyResult, privateKey: string, after: seq<string>)
    requires key.dnsServers != []
    ensures var lines := Interface(key, privateKey) + Hooks(Kill) + after;
            && ValueOf(lines, "PostUp") == Some(RejectOutside("-I"))
            && ValueOf(lines, "PostDown") == Some(RejectOutside("-D"))
  {
    var up, down := Setting("PostUp", RejectOutside("-I")), Setting("PostDown", RejectOutside("-D"));
    var first := Interface(key, privateKey);
    InterfaceIsUnset(key, privateKey, "PostUp");
    ReadsFirst(first, "PostUp", RejectOutside("-I"), [down] + after);
    assert first + Hooks(Kill) + after == first + [up] + ([down] + after);
    InterfaceIsUnset(key, privateKey, "PostDown");
    UpIsNotDown(RejectOutside("-I"));
    JoinUnset(first, [up], "PostDown");
    ReadsFirst(first + [up], "PostDown", RejectOutside("-D"), after);
    assert first + Hooks(Kill) + after == (first + [up]) + [down] + after;
  }

  lemma PeerIsUnset(key: AddKeyResult, mode: IPv6Mode, name: string)
    requires Apart("[Peer]", name) && Apart("PublicKey", name) && Apart("AllowedIPs", name)
    ensures AllUnset(Peer(key, mode), name)
  {
    ApartIsUnset("[Peer]", name);
    SettingIsUnset("PublicKey", key.serverKey, name);
    SettingIsUnset("AllowedIPs", WgConfig.AllowedIPs(mode), name);
  }

  lemma {:induction false} TwoLines(a: string, b: string, name: string)
    requires OneLine(a) && OneLine(b) && Unset(a, name) && Unset(b, name)
    ensures AllUnset(Lines(a), name) && AllUnset(Lines(a + "\n" + b), name)
  {
    LinesOfOneLine(a);
    LinesOfOneLine(b);
    LinesOfConcat(a, b);
  }

  lemma {:induction false} TailIsUnset(serverCommonName: string, name: string)
    requires OneLine(serverCommonName)
    requires Apart("PersistentKeepalive", name) && Apart("# ServerCommonName", name)
    ensures AllUnset(Lines(Tail(serverCommonName)), name)
  {
    SettingIsUnset("PersistentKeepalive", "25", name);
    SettingIsUnset("# ServerCommonName", serverCommonName, name);
    TwoLines(Setting("PersistentKeepalive", "25"), Setting("# ServerCommonName", serverCommonName), name);
  }

  lemma EndpointIsUnset(key: AddKeyResult, name: string)
    requires key.serverPort >= 0 && Apart("Endpoint = ", name)
    ensures Unset(EndpointLine(key), name)
  {
    assert EndpointLine(key)[0] == 'E' && EndpointLine(key)[1] == 'n';
    ApartIsUnset(EndpointLine(key), name);
  }

  /** A name that none of the other lines sets. */
  predicate ApartFromOthers(name: string) {
    && Apart("[Interface]", name) && Apart("PrivateKey", name) && Apart("Address", name) && Apart("DNS", name)
    && Apart("[Peer]", name) && Apart("PublicKey", name) && Apart("AllowedIPs", name) && Apart("Endpoint = ", name)
    && Apart("PersistentKeepalive", name) && Apart("# ServerCommonName", name)
  }

  lemma HookNamesAreApart()
    ensures ApartFromOthers("PostUp") && ApartFromOthers("PostDown")
  {
  }

  lemma {:induction false} HeadWithoutHooks(key: AddKeyResult, privateKey: string, mode: IPv6Mode, name: string)
    requires key.dnsServers != [] && mode != Kill && ApartFromOthers(name)
    ensures AllUnset(HeadLines(key, privateKey, mode), name)
  {
    InterfaceIsUnset(key, privateKey, name);
    PeerIsUnset(key, mode, name);
    JoinUnset(Interface(key, privateKey), Hooks(mode), name);
    JoinUnset(Interface(key, privateKey) + Hooks(mode), Peer(key, mode), name);
  }

  lemma {:induction false} AfterIsUnset(key: AddKeyResult, serverCommonName: string, name: string)
    requires key.serverPort >= 0 && OneLine(serverCommonName) && ApartFromOthers(name)
    ensures AllUnset(After(key, serverCommonName), name)
  {
    EndpointIsUnset(key, name);
    TailIsUnset(serverCommonName, name);
    JoinUnset([EndpointLine(key)], Lines(Tail(serverCommonName)), name);
  }

  lemma {:induction false} JoinReadsNone(a: seq<string>, b: seq<string>, name: string)
    requires AllUnset(a, name) && AllUnset(b, name)
    ensures ValueOf(a + b, name) == None
  {
    JoinUnset(a, b, name);
    ReadsNone(a + b, name);
  }

  lemma {:induction false} NoHooks(key: AddKeyResult, privateKey: string, mode: IPv6Mode, serverCommonName: string,
                                   name: string)
    requires Complete(key) && mode != Kill && OneLine(serverCommonName) && ApartFromOthers(name)
    ensures ValueOf(HeadLines(key, privateKey, mode) + After(key, serverCommonName), name) == None
  {
    HeadWithoutHooks(key, privateKey, mode, name);
    AfterIsUnset(key, serverCommonName, name);
    JoinReadsNone(HeadLines(key, privateKey, mode), After(key, serverCommonName), name);
  }

  /** The rules of the hooks: up inserts one that rejects what leaves by another device, down deletes it. */
  lemma RulesExactly()
    ensures RejectOutside("-I") == "ip6tables -I OUTPUT ! -o %i -j REJECT"
    ensures RejectOutside("-D") == "ip6tables -D OUTPUT ! -o %i -j REJECT"
  {
  }

  lemma KillJoins(key: AddKeyResult, privateKey: string, after: seq<string>)
    requires key.dnsServers != []
    ensures HeadLines(key, privateKey, Kill) + after ==
            Interface(key, privateKey) + Hooks(Kill) + (Peer(key, Kill) + after)
  {
    Regroup(Interface(key, privateKey) + Hooks(Kill), Peer(key, Kill), after);
  }

  /** The firewall hooks are there exactly in kill mode. */
  lemma {:induction false} HooksReadBack(key: AddKeyResult, privateKey: string, mode: IPv6Mode,
                                         serverCommonName: string)
    requires FieldsOfOneLine(key, privateKey) && Complete(key) && OneLine(serverCommonName)
    ensures var lines := Lines(Generate(key, privateKey, mode, serverCommonName).text);
            && ValueOf(lines, "PostUp") == (if mode == Kill then Some(RejectOutside("-I")) else None)
            && ValueOf(lines, "PostDown") == (if mode == Kill then Some(RejectOutside("-D")) else None)
  {
    var after := After(key, serverCommonName);
    ConfigLines(key, privateKey, mode, serverCommonName);
    if mode == Kill {
      KillHooks(key, privateKey, Peer(key, mode) + after);
      KillJoins(key, privateKey, after);
    } else {
      HookNamesAreApart();
      NoHooks(key, privateKey, mode, serverCommonName, "PostUp");
      NoHooks(key, privateKey, mode, serverCommonName, "PostDown");
    }
  }

  lemma {:induction false} TwoLinesSplit(a: string, b: string)
    requires OneLine(a) && OneLine(b)
    ensures Lines(a) == [a] && Lines(a + "\n" + b) == [a] + [b]
  {
    LinesOfOneLine(a);
    LinesOfOneLine(b);
    LinesOfConcat(a, b);
  }

  /** The first line of the tail, and the comment after it, if any. */
  lemma {:induction false} TailLines(serverCommonName: string)
    requires OneLine(serverCommonName)
    ensures Lines(Tail(serverCommonName)) ==
            [Setting("PersistentKeepalive", "25")] +
            (if serverCommonName == "" then [] else [Setting("# ServerCommonName", serverCommonName)])
  {
    var alive, comment := Setting("PersistentKeepalive", "25"), Setting("# ServerCommonName", serverCommonName);
    TwoLinesSplit(alive, comment);
  }

  lemma {:induction false} FrontIsUnset(key: AddKeyResult, privateKey: string, mode: IPv6Mode, name: string)
    requires Complete(key) && name in ["PersistentKeepalive", "# ServerCommonName"]
    ensures AllUnset(HeadLines(key, privateKey, mode) + [EndpointLine(key)], name)
  {
    InterfaceIsUnset(key, privateKey, name);
    HooksAreUnset(mode, name);
    PeerIsUnset(key, mode, name);
    EndpointIsUnset(key, name);
    JoinUnset(Interface(key, privateKey), Hooks(mode), name);
    JoinUnset(Interface(key, privateKey) + Hooks(mode), Peer(key, mode), name);
    JoinUnset(HeadLines(key, privateKey, mode), [EndpointLine(key)], name);
  }

  /** The keepalive is 25 seconds, and the server's name is there, as a comment, exactly when it is known. */
  lemma {:induction false} TailReadsBack(key: AddKeyResult, privateKey: string, mode: IPv6Mode,
                                         serverCommonName: string)
    requires FieldsOfOneLine(key, privateKey) && Complete(key) && OneLine(serverCommonName)
    ensures var lines := Lines(Generate(key, privateKey, mode, serverCommonName).text);
            && ValueOf(lines, "PersistentKeepalive") == Some("25")
            && (serverCommonName != "" ==> ValueOf(lines, "# ServerCommonName") == Some(serverCommonName))
  {
    var front := HeadLines(key, privateKey, mode) + [EndpointLine(key)];
    var alive, comment := Setting("PersistentKeepalive", "25"), Setting("# ServerCommonName", serverCommonName);
    var comments := if serverCommonName == "" then [] else [comment];
    ConfigLines(key, privateKey, mode, serverCommonName);
    TailLines(serverCommonName);
    Regroup(HeadLines(key, privateKey, mode), [EndpointLine(key)], [alive] + comments);
    FrontIsUnset(key, privateKey, mode, "PersistentKeepalive");
    ReadsFirst(front, "PersistentKeepalive", "25", comments);
    Regroup(front, [alive], comments);
    if serverCommonName != "" {
      FrontIsUnset(key, privateKey, mode, "# ServerCommonName");
      SettingIsUnset("PersistentKeepalive", "25", "# ServerCommonName");
      JoinUnset(front, [alive], "# ServerCommonName");
      ReadsFirst(front + [alive], "# ServerCommonName", serverCommonName, []);
      assert front + [alive] + [comment] + [] == front + ([alive] + comments);
    }
  }

  /** The key of the endpoint is known in any case of its letters. */
  lemma EndpointInAnyCase(name: string, value: string)
    requires name in ["endpoint", "Endpoint", "ENDPOINT", "EndPoint"]
    requires value != "" && !IsSpace(value[|value| - 1])
    ensures EndpointValue(name + "=" + value) == Some(Trim(value))
  {
    var line := name + "=" + value;
    assert ToLower(name) == "endpoint";
    assert line[|line| - 1] == value[|value| - 1];
    assert TrimLeft(line) == line;
    TrimRightKeeps(line);
    KeyedLine(name, value);
  }

  // ----- Inputs that yield no configuration, and files that name no endpoint -----

  /** The first check that fails names the error. */
  lemma ReasonExactly(key: AddKeyResult, privateKey: string, mode: IPv6Mode, serverCommonName: string)
    ensures var g := Generate(key, privateKey, mode, serverCommonName);
            && (g == Invalid(BadPort) <==> key.serverPort <= 0)
            && (g == Invalid(BadServerIP) <==> key.serverPort > 0 && Trim(key.serverIP) == "")
            && (g == Invalid(NoDNS) <==>
                  key.serverPort > 0 && Trim(key.serverIP) != "" &&
                  (key.dnsServers == [] || Trim(key.dnsServers[0]) == ""))
  {
  }

  lemma {:induction false} NoneIsEmpty(lines: seq<string>)
    requires forall i | 0 <= i < |lines| :: EndpointValue(lines[i]) == None
    ensures FirstEndpoint(lines) == ""
  {
    if lines != [] {
      NoneIsEmpty(lines[1..]);
    }
  }

  /** A missing file is an error; a file without an endpoint line is the empty answer. */
  lemma ParseWithoutEndpoint(file: Option<string>)
    ensures ParseEndpoint(file) == NoFile <==> file == None
    ensures file.Some? && (forall i | 0 <= i < |Lines(file.value)| :: EndpointValue(Lines(file.value)[i]) == None) ==>
              ParseEndpoint(file) == Endpoint("")
  {
    if file.Some? && forall i | 0 <= i < |Lines(file.value)| :: EndpointValue(Lines(file.value)[i]) == None {
      NoneIsEmpty(Lines(file.value));
    }
  }
}
