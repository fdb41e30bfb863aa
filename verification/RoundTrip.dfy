/**
 * Printing and parsing undo each other: reading back the wg0.conf that the writer produced gives the
 * interface settings and exactly the peers it was written from.
 */
module RoundTrip {
  import opened Wrappers
  import Ipv4
  import Numbers
  import Sorting
  import Text
  import WgConfig
  import WgQuick

  /** The text of a trimmed form field. */
  predicate Field(s: string)
  {
    Text.Trimmed(s) && '\n' !in s
  }

  predicate IsLetter(c: char)
  {
    'a' <= c <= 'z' || 'A' <= c <= 'Z'
  }

  predicate Word(s: string)
  {
    s != "" && forall i :: 0 <= i < |s| ==> IsLetter(s[i])
  }

  // ---------- Reading one written line ----------

  const NOTE := WgQuick.Comment(None)

  lemma TrimKv(key: string, value: string)
    requires Word(key) && Text.Trimmed(value)
    ensures Text.Trim(WgConfig.KvLine(key, value))
         == key + (" =" + if value == "" then "" else " " + value)
  {
    var raw := WgConfig.KvLine(key, value);
    if value == "" {
      var t := key + " =";
      assert raw == t + " " && t[0] == key[0] && t[|t| - 1] == '=';
      Text.TrimDropsLast(t);
      assert key + (" =" + "") == t;
    } else {
      assert raw[0] == key[0] && raw[|raw| - 1] == value[|value| - 1];
      assert key + (" =" + (" " + value)) == raw;
    }
  }

  lemma ParseKvText(key: string, tail: string)
    requires Word(key)
    ensures WgQuick.ParseKV(key + (" =" + tail)) == Some(WgQuick.KV(Text.Lower(key), Text.Trim(tail)))
  {
    var line := key + (" =" + tail);
    var front := key + " ";
    assert line == front + ['='] + tail;
    assert '=' !in key && '=' !in front;
    Text.IndexOfPrefix(front, '=', tail);
    assert line[..|front|] == front && line[|front| + 1..] == tail;
    Text.TrimDropsLast(key);
  }

  lemma ReadKvLine(key: string, value: string)
    requires Word(key) && Text.Trimmed(value)
    ensures WgQuick.ReadLine(WgConfig.KvLine(key, value)) == WgQuick.Setting(WgQuick.KV(Text.Lower(key), value))
  {
    TrimKv(key, value);
    var tail := if value == "" then "" else " " + value;
    ParseKvText(key, tail);
    Text.TrimOfTrimmed(value);
    if value != "" {
      Text.TrimSkipsSpace(value);
    }
    assert (key + (" =" + tail))[0] == key[0];
  }

  lemma ReadPeerHeader()
    ensures WgQuick.ReadLine("[Peer]") == WgQuick.Header("peer")
  {
    Text.TrimOfTrimmed("[Peer]");
    assert "[Peer]"[1..5] == "Peer";
    Text.TrimOfTrimmed("Peer");
    assert Text.Lower("Peer") == "peer";
  }

  lemma ReadInterfaceHeader()
    ensures WgQuick.ReadLine("[Interface]") == WgQuick.Header("interface")
  {
    Text.TrimOfTrimmed("[Interface]");
    assert "[Interface]"[1..10] == "Interface";
    Text.TrimOfTrimmed("Interface");
    assert Text.Lower("Interface") == "interface";
  }

  /** A comment whose first letter is not that of `user:` names nobody. */
  lemma ReadOtherComment(raw: string)
    requires |raw| > 2 && raw[0] == '#' && raw[1] == ' '
    requires !Text.IsSpace(raw[2]) && raw[2] != ';' && Text.LowerChar(raw[2]) != 'u'
    ensures WgQuick.ReadLine(raw) == NOTE
  {
    Text.TrimRightKeeps(raw, 2);
    var line := Text.Trim(raw);
    assert line[..3] == raw[..3];
    assert line[0] == '#' && line[1] == ' ' && line[2] == raw[2];
    TrimStarts(line[1..]);
    var inner := Text.Trim(line[1..]);
    Text.TrimRightKeeps(inner, 0);
    var ln := Text.Trim(inner);
    assert ln[..1] == inner[..1];
    assert ln[0] == raw[2];
    assert Text.Lower(ln)[0] != "user:"[0];
  }

  /** One leading space goes, the character after it stays. */
  lemma TrimStarts(s: string)
    requires |s| > 1 && s[0] == ' ' && !Text.IsSpace(s[1])
    ensures Text.Trim(s) != "" && Text.Trim(s)[0] == s[1]
  {
    assert Text.TrimLeft(s) == s[1..];
    Text.TrimRightKeeps(s[1..], 0);
    assert Text.Trim(s)[..1] == s[1..][..1];
  }

  lemma ReadUserComment(name: string)
    requires Text.Trimmed(name)
    ensures WgQuick.ReadLine("# User: " + name) == WgQuick.Comment(if name == "" then None else Some(name))
  {
    var raw := "# User: " + name;
    var line := "# User:" + if name == "" then "" else " " + name;
    if name == "" {
      assert raw == "# User:" + " ";
      Text.TrimDropsLast("# User:");
    } else {
      assert raw == line;
      Text.TrimOfTrimmed(line);
    }
    ParseUserText(if name == "" then "" else " " + name);
    Text.TrimOfTrimmed(name);
    if name != "" {
      Text.TrimSkipsSpace(name);
    }
  }

  lemma LowerUser(tail: string)
    ensures "user:" <= Text.Lower("User:" + tail)
  {
    var t := Text.Lower("User:" + tail);
    assert t[0] == 'u' && t[1] == 's' && t[2] == 'e' && t[3] == 'r' && t[4] == ':';
  }

  lemma ParseUserText(tail: string)
    requires tail == "" || !Text.IsSpace(tail[|tail| - 1])
    ensures WgQuick.ParseUserComment("# User:" + tail)
         == if Text.Trim(tail) == "" then None else Some(Text.Trim(tail))
  {
    var line := "# User:" + tail;
    var ln := "User:" + tail;
    assert line[1..] == " " + ln;
    Text.TrimSkipsSpace(ln);
    assert Text.Trimmed(ln);
    Text.TrimOfTrimmed(ln);
    assert ln[0] == 'U';
    LowerUser(tail);
    assert ln[5..] == tail;
  }

  // ---------- The hooks ----------

  datatype Hook = PreUp | PostUp | PreDown | PostDown

  function HookKey(h: Hook): string
  {
    match h
    case PreUp => "PreUp"
    case PostUp => "PostUp"
    case PreDown => "PreDown"
    case PostDown => "PostDown"
  }

  function GetHook(intf: WgQuick.Interface, h: Hook): string
  {
    match h
    case PreUp => intf.preUp
    case PostUp => intf.postUp
    case PreDown => intf.preDown
    case PostDown => intf.postDown
  }

  function SetHook(intf: WgQuick.Interface, h: Hook, text: string): WgQuick.Interface
  {
    match h
    case PreUp => intf.(preUp := text)
    case PostUp => intf.(postUp := text)
    case PreDown => intf.(preDown := text)
    case PostDown => intf.(postDown := text)
  }

  function HookName(h: Hook): string
  {
    match h
    case PreUp => "preup"
    case PostUp => "postup"
    case PreDown => "predown"
    case PostDown => "postdown"
  }

  lemma HookKeys(h: Hook)
    ensures Word(HookKey(h)) && Text.Lower(HookKey(h)) == HookName(h)
  {
  }

  lemma ApplyHook(intf: WgQuick.Interface, h: Hook, v: string)
    ensures WgQuick.ApplyInterfaceKV(intf, WgQuick.KV(HookName(h), v))
         == SetHook(intf, h, WgQuick.AppendHookLine(GetHook(intf, h), v))
  {
  }

  lemma StepInInterface(st: WgQuick.State, kv: WgQuick.KV, intf: WgQuick.Interface)
    requires st.section == WgQuick.InterfaceSection && WgQuick.ApplyInterfaceKV(st.iface, kv) == intf
    ensures WgQuick.Step(st, WgQuick.Setting(kv)) == st.(iface := intf)
  {
  }

  /** Trimmed, not blank, single-line values. */
  predicate HookPieces(values: seq<string>)
  {
    forall i :: 0 <= i < |values| ==> values[i] != "" && Field(values[i])
  }

  lemma {:induction false} JoinIsTrimmed(values: seq<string>)
    requires HookPieces(values) && values != []
    ensures Text.Join(values, "\n") != "" && Text.Trimmed(Text.Join(values, "\n"))
  {
    if |values| > 1 {
      JoinIsTrimmed(values[..|values| - 1]);
    }
  }

  lemma {:induction false} AppendBuildsJoin(values: seq<string>)
    requires HookPieces(values) && values != []
    ensures var n := |values| - 1;
            WgQuick.AppendHookLine(Text.Join(values[..n], "\n"), values[n]) == Text.Join(values, "\n")
  {
    var n := |values| - 1;
    Text.TrimOfTrimmed(values[n]);
    if n > 0 {
      JoinIsTrimmed(values[..n]);
      Text.TrimOfTrimmed(Text.Join(values[..n], "\n"));
    }
  }

  function HookSettings(h: Hook, values: seq<string>): seq<WgQuick.Line>
  {
    seq(|values|, i requires 0 <= i < |values| => WgQuick.Setting(WgQuick.KV(HookName(h), values[i])))
  }

  lemma ReadHookLines(h: Hook, values: seq<string>)
    requires HookPieces(values)
    ensures WgQuick.ReadsAs(WgConfig.KvLines(HookKey(h), values), HookSettings(h, values))
  {
    HookKeys(h);
    forall i | 0 <= i < |values| {
      ReadKvLine(HookKey(h), values[i]);
    }
  }

  lemma {:induction false} WalkHook(st: WgQuick.State, h: Hook, values: seq<string>)
    requires HookPieces(values) && st.section == WgQuick.InterfaceSection && GetHook(st.iface, h) == ""
    ensures WgQuick.Walk(st, HookSettings(h, values))
         == st.(iface := SetHook(st.iface, h, Text.Join(values, "\n")))
  {
    if values != [] {
      var n := |values| - 1;
      var last := WgQuick.Setting(WgQuick.KV(HookName(h), values[n]));
      WalkHook(st, h, values[..n]);
      WalkLastHook(st, h, values);
      assert HookSettings(h, values) == HookSettings(h, values[..n]) + [last];
      WgQuick.WalkConcat(st, HookSettings(h, values[..n]), [last]);
      WgQuick.WalkOne(WgQuick.Walk(st, HookSettings(h, values[..n])), last);
    }
  }

  lemma WalkLastHook(st: WgQuick.State, h: Hook, values: seq<string>)
    requires HookPieces(values) && values != [] && st.section == WgQuick.InterfaceSection
    ensures var n := |values| - 1;
            WgQuick.Step(st.(iface := SetHook(st.iface, h, Text.Join(values[..n], "\n"))),
                         WgQuick.Setting(WgQuick.KV(HookName(h), values[n])))
            == st.(iface := SetHook(st.iface, h, Text.Join(values, "\n")))
  {
    var n := |values| - 1;
    var before := SetHook(st.iface, h, Text.Join(values[..n], "\n"));
    AppendBuildsJoin(values);
    ApplyHook(before, h, values[n]);
    StepInInterface(st.(iface := before), WgQuick.KV(HookName(h), values[n]),
                    SetHook(before, h, Text.Join(values, "\n")));
  }

  lemma {:induction false} HookValuesArePieces(pieces: seq<string>)
    requires forall i :: 0 <= i < |pieces| ==> '\n' !in pieces[i]
    ensures HookPieces(WgConfig.HookValues(pieces))
  {
    if pieces != [] {
      var n := |pieces| - 1;
      HookValuesArePieces(pieces[..n]);
      Text.TrimIsTrimmed(pieces[n]);
    }
  }

  lemma HookLinesArePieces(value: string)
    ensures HookPieces(WgConfig.HookLinesOf(value))
  {
    Text.SplitPieces(Text.Trim(value), '\n');
    HookValuesArePieces(Text.Split(Text.Trim(value), '\n'));
  }

  // ---------- The interface section ----------

  /** What the parser keeps of a written port. */
  function ReadPort(port: int): int
  {
    if 0 < port <= 65535 then port else 0
  }

  /** The server's own port, or the configured one when it has none. */
  function PortMeant(server: WgConfig.Server, cfg: WgConfig.Settings): int
  {
    if server.port != 0 then server.port else cfg.serverPort
  }

  /** A bare address gets the prefix length 24; any other text stays as it is. */
  function AddressMeant(addr: string): string
  {
    if Ipv4.ParseIP(addr).Some? then addr + "/24" else addr
  }

  lemma AddressIsMeant(addr: string)
    ensures WgConfig.ServerAddr(addr) == AddressMeant(addr)
  {
    if Ipv4.ParseIP(addr).Some? {
      Ipv4.ParseIPExact(addr, Ipv4.ParseIP(addr).value);
      Ipv4.HostCharacters(Ipv4.ParseIP(addr).value);
    }
  }

  function BaseInterface(server: WgConfig.Server, cfg: WgConfig.Settings): WgQuick.Interface
  {
    WgQuick.NO_INTERFACE.(privateKey := server.privateKey,
                          listenPort := ReadPort(PortMeant(server, cfg)),
                          address := AddressMeant(cfg.serverAddress),
                          dns := cfg.dns,
                          mtu := if cfg.mtu > 0 then cfg.mtu else 0)
  }

  function S(key: string, value: string): WgQuick.Line
  {
    WgQuick.Setting(WgQuick.KV(key, value))
  }

  function DnsRead(cfg: WgConfig.Settings): seq<WgQuick.Line>
  {
    if Text.Trim(cfg.dns) != "" then [S("dns", cfg.dns)] else []
  }

  function MtuRead(cfg: WgConfig.Settings): seq<WgQuick.Line>
  {
    if cfg.mtu > 0 then [WgQuick.Blank, NOTE, S("mtu", Numbers.PrintInt(cfg.mtu))] else []
  }

  function BasicRead(server: WgConfig.Server, cfg: WgConfig.Settings): seq<WgQuick.Line>
  {
    [S("privatekey", server.privateKey), S("listenport", Numbers.PrintInt(PortMeant(server, cfg))),
     S("address", AddressMeant(cfg.serverAddress))]
  }

  function InterfaceRead(server: WgConfig.Server, cfg: WgConfig.Settings): seq<WgQuick.Line>
  {
    [WgQuick.Header("interface")] + BasicRead(server, cfg) + DnsRead(cfg) + MtuRead(cfg)
  }

  /** Numbers that Go's int can hold. */
  predicate Int64(n: int)
  {
    -0x8000_0000_0000_0000 <= n < 0x8000_0000_0000_0000
  }

  predicate WellFormedServer(server: WgConfig.Server, cfg: WgConfig.Settings)
  {
    server.privateKey != "" && Field(server.privateKey) && Field(cfg.serverAddress) && Field(cfg.dns)
    && Int64(PortMeant(server, cfg)) && Int64(cfg.mtu) && Int64(cfg.persistentKeepalive)
  }

  lemma AddressIsField(addr: string)
    requires Field(addr)
    ensures Field(AddressMeant(addr)) && WgConfig.ServerAddr(addr) == AddressMeant(addr)
  {
    var t := addr + "/24";
    AddressIsMeant(addr);
    assert t[|t| - 1] == '4';
    assert addr != "" ==> t[0] == addr[0];
    assert addr == "" ==> t[0] == '/';
    assert forall c :: c in t <==> c in addr || c in "/24";
  }

  lemma ApplyBasics(intf: WgQuick.Interface, v: string)
    requires Text.Trimmed(v)
    ensures WgQuick.ApplyInterfaceKV(intf, WgQuick.KV("privatekey", v)) == intf.(privateKey := v)
    ensures WgQuick.ApplyInterfaceKV(intf, WgQuick.KV("address", v)) == intf.(address := v)
    ensures WgQuick.ApplyInterfaceKV(intf, WgQuick.KV("dns", v)) == intf.(dns := v)
  {
    Text.TrimOfTrimmed(v);
  }

  lemma PrintIntIsField(n: int)
    ensures Field(Numbers.PrintInt(n))
  {
    var s := Numbers.PrintInt(n);
    assert forall i :: 0 <= i < |s| ==> s[i] == '-' || Numbers.IsDigit(s[i], 10);
  }

  lemma ApplyNumbers(intf: WgQuick.Interface, n: int)
    requires Int64(n)
    ensures WgQuick.ApplyInterfaceKV(intf, WgQuick.KV("listenport", Numbers.PrintInt(n)))
         == if 0 < n <= 65535 then intf.(listenPort := n) else intf
    ensures WgQuick.ApplyInterfaceKV(intf, WgQuick.KV("mtu", Numbers.PrintInt(n)))
         == if n > 0 then intf.(mtu := n) else intf
  {
    PrintIntIsField(n);
    Text.TrimOfTrimmed(Numbers.PrintInt(n));
    Numbers.AtoiPrintInt(n);
  }

  lemma WalkSettings(st: WgQuick.State, server: WgConfig.Server, cfg: WgConfig.Settings)
    requires WellFormedServer(server, cfg) && st.section == WgQuick.InterfaceSection
    requires st.iface == WgQuick.NO_INTERFACE
    ensures WgQuick.Walk(st, BasicRead(server, cfg))
         == st.(iface := BaseInterface(server, cfg).(dns := "", mtu := 0))
  {
    var port := PortMeant(server, cfg);
    var addr := AddressMeant(cfg.serverAddress);
    var i1 := st.iface.(privateKey := server.privateKey);
    var i2 := i1.(listenPort := ReadPort(port));
    var i3 := i2.(address := addr);
    AddressIsField(cfg.serverAddress);
    ApplyBasics(st.iface, server.privateKey);
    ApplyNumbers(i1, port);
    ApplyBasics(i2, addr);
    StepInInterface(st, WgQuick.KV("privatekey", server.privateKey), i1);
    StepInInterface(st.(iface := i1), WgQuick.KV("listenport", Numbers.PrintInt(port)), i2);
    StepInInterface(st.(iface := i2), WgQuick.KV("address", addr), i3);
    WgQuick.WalkThree(st, S("privatekey", server.privateKey), S("listenport", Numbers.PrintInt(port)),
                      S("address", addr));
  }

  lemma WalkDns(st: WgQuick.State, cfg: WgConfig.Settings)
    requires Field(cfg.dns) && st.section == WgQuick.InterfaceSection && st.iface.dns == ""
    ensures WgQuick.Walk(st, DnsRead(cfg)) == st.(iface := st.iface.(dns := cfg.dns))
  {
    Text.TrimOfTrimmed(cfg.dns);
    if cfg.dns != "" {
      ApplyBasics(st.iface, cfg.dns);
      StepInInterface(st, WgQuick.KV("dns", cfg.dns), st.iface.(dns := cfg.dns));
      WgQuick.WalkOne(st, S("dns", cfg.dns));
    }
  }

  lemma WalkMtu(st: WgQuick.State, cfg: WgConfig.Settings)
    requires Int64(cfg.mtu) && st.section == WgQuick.InterfaceSection && st.iface.mtu == 0
    ensures WgQuick.Walk(st, MtuRead(cfg)) == st.(iface := st.iface.(mtu := if cfg.mtu > 0 then cfg.mtu else 0))
  {
    if cfg.mtu > 0 {
      ApplyNumbers(st.iface, cfg.mtu);
      StepInInterface(st, WgQuick.KV("mtu", Numbers.PrintInt(cfg.mtu)), st.iface.(mtu := cfg.mtu));
      WgQuick.WalkThree(st, WgQuick.Blank, NOTE, S("mtu", Numbers.PrintInt(cfg.mtu)));
    }
  }

  lemma WalkInterface(server: WgConfig.Server, cfg: WgConfig.Settings)
    requires WellFormedServer(server, cfg)
    ensures WgQuick.Walk(WgQuick.START, InterfaceRead(server, cfg))
         == WgQuick.START.(section := WgQuick.InterfaceSection, iface := BaseInterface(server, cfg))
  {
    var head := [WgQuick.Header("interface")];
    var three := BasicRead(server, cfg);
    var st := WgQuick.START.(section := WgQuick.InterfaceSection);
    var base := BaseInterface(server, cfg);
    WgQuick.WalkOne(WgQuick.START, WgQuick.Header("interface"));
    WalkSettings(st, server, cfg);
    var st1 := st.(iface := base.(dns := "", mtu := 0));
    WalkDns(st1, cfg);
    var st2 := st.(iface := base.(mtu := 0));
    WalkMtu(st2, cfg);
    WgQuick.WalkConcat(WgQuick.START, head, three);
    WgQuick.WalkConcat(WgQuick.START, head + three, DnsRead(cfg));
    WgQuick.WalkConcat(WgQuick.START, head + three + DnsRead(cfg), MtuRead(cfg));
  }

  lemma ReadKv(key: string, low: string, value: string)
    requires Word(key) && Text.Lower(key) == low && Text.Trimmed(value)
    ensures WgQuick.ReadLine(WgConfig.KvLine(key, value)) == S(low, value)
  {
    ReadKvLine(key, value);
  }

  lemma InterfaceKeys()
    ensures Word("PrivateKey") && Text.Lower("PrivateKey") == "privatekey"
    ensures Word("ListenPort") && Text.Lower("ListenPort") == "listenport"
    ensures Word("Address") && Text.Lower("Address") == "address"
  {
  }

  lemma OptionalKeys()
    ensures Word("DNS") && Text.Lower("DNS") == "dns"
    ensures Word("MTU") && Text.Lower("MTU") == "mtu"
  {
  }

  lemma ReadBlank()
    ensures WgQuick.ReadLine("") == WgQuick.Blank
  {
  }

  lemma ReadBasicLines(server: WgConfig.Server, cfg: WgConfig.Settings)
    requires WellFormedServer(server, cfg)
    ensures WgQuick.ReadsAs(WgConfig.BasicLines(server, cfg), BasicRead(server, cfg))
  {
    var port, addr := Numbers.PrintInt(WgConfig.ListenPort(server, cfg)), WgConfig.ServerAddr(cfg.serverAddress);
    InterfaceKeys();
    AddressIsField(cfg.serverAddress);
    PrintIntIsField(WgConfig.ListenPort(server, cfg));
    ReadKv("PrivateKey", "privatekey", server.privateKey);
    ReadKv("ListenPort", "listenport", port);
    ReadKv("Address", "address", addr);
    WgQuick.ReadsThree(WgConfig.KvLine("PrivateKey", server.privateKey), WgConfig.KvLine("ListenPort", port),
                       WgConfig.KvLine("Address", addr),
                       S("privatekey", server.privateKey), S("listenport", port), S("address", addr));
  }

  lemma ReadDnsLines(cfg: WgConfig.Settings)
    requires Field(cfg.dns)
    ensures WgQuick.ReadsAs(WgConfig.DnsLines(cfg), DnsRead(cfg))
  {
    OptionalKeys();
    ReadKv("DNS", "dns", cfg.dns);
    WgQuick.ReadsOne(WgConfig.KvLine("DNS", cfg.dns), S("dns", cfg.dns));
  }

  lemma ReadMtuLines(cfg: WgConfig.Settings)
    ensures WgQuick.ReadsAs(WgConfig.MtuLines(cfg), MtuRead(cfg))
  {
    OptionalKeys();
    ReadBlank();
    ReadOtherComment("# MTU Configuration");
    PrintIntIsField(cfg.mtu);
    ReadKv("MTU", "mtu", Numbers.PrintInt(cfg.mtu));
    WgQuick.ReadsThree("", "# MTU Configuration", WgConfig.KvLine("MTU", Numbers.PrintInt(cfg.mtu)),
                       WgQuick.Blank, NOTE, S("mtu", Numbers.PrintInt(cfg.mtu)));
  }

  lemma ReadInterfaceLines(server: WgConfig.Server, cfg: WgConfig.Settings)
    requires WellFormedServer(server, cfg)
    ensures WgQuick.ReadsAs(WgConfig.InterfaceLines(server, cfg), InterfaceRead(server, cfg))
  {
    var head, lhead := ["[Interface]"], [WgQuick.Header("interface")];
    var basic, lbasic := WgConfig.BasicLines(server, cfg), BasicRead(server, cfg);
    ReadInterfaceHeader();
    WgQuick.ReadsOne("[Interface]", WgQuick.Header("interface"));
    ReadBasicLines(server, cfg);
    ReadDnsLines(cfg);
    ReadMtuLines(cfg);
    WgQuick.ReadsAsConcat(head, basic, lhead, lbasic);
    WgQuick.ReadsAsConcat(head + basic, WgConfig.DnsLines(cfg), lhead + lbasic, DnsRead(cfg));
    WgQuick.ReadsAsConcat(head + basic + WgConfig.DnsLines(cfg), WgConfig.MtuLines(cfg),
                          lhead + lbasic + DnsRead(cfg), MtuRead(cfg));
  }

  function HooksRead(cfg: WgConfig.Settings): seq<WgQuick.Line>
  {
    HookSettings(PreUp, WgConfig.HookLinesOf(cfg.preUp)) + HookSettings(PostUp, WgConfig.HookLinesOf(cfg.postUp))
    + HookSettings(PreDown, WgConfig.HookLinesOf(cfg.preDown))
    + HookSettings(PostDown, WgConfig.HookLinesOf(cfg.postDown)) + [WgQuick.Blank]
  }

  lemma ReadHookField(h: Hook, value: string)
    ensures WgQuick.ReadsAs(WgConfig.KvLines(HookKey(h), WgConfig.HookLinesOf(value)),
                            HookSettings(h, WgConfig.HookLinesOf(value)))
  {
    HookLinesArePieces(value);
    ReadHookLines(h, WgConfig.HookLinesOf(value));
  }

  lemma ReadHooks(cfg: WgConfig.Settings)
    ensures WgQuick.ReadsAs(WgConfig.HookLines(cfg), HooksRead(cfg))
  {
    var a, b := WgConfig.HookLinesOf(cfg.preUp), WgConfig.HookLinesOf(cfg.postUp);
    var c, d := WgConfig.HookLinesOf(cfg.preDown), WgConfig.HookLinesOf(cfg.postDown);
    ReadHookField(PreUp, cfg.preUp);
    ReadHookField(PostUp, cfg.postUp);
    ReadHookField(PreDown, cfg.preDown);
    ReadHookField(PostDown, cfg.postDown);
    ReadBlank();
    WgQuick.ReadsOne("", WgQuick.Blank);
    WgQuick.ReadsAsFive(WgConfig.KvLines("PreUp", a), WgConfig.KvLines("PostUp", b),
                        WgConfig.KvLines("PreDown", c), WgConfig.KvLines("PostDown", d), [""],
                        HookSettings(PreUp, a), HookSettings(PostUp, b),
                        HookSettings(PreDown, c), HookSettings(PostDown, d), [WgQuick.Blank]);
  }

  /** The non-empty trimmed lines of a hook field, one per line. */
  function HookText(value: string): string
  {
    Text.Join(WgConfig.HookLinesOf(value), "\n")
  }

  function InterfaceOf(server: WgConfig.Server, cfg: WgConfig.Settings): WgQuick.Interface
  {
    BaseInterface(server, cfg).(preUp := HookText(cfg.preUp), postUp := HookText(cfg.postUp),
                                preDown := HookText(cfg.preDown), postDown := HookText(cfg.postDown))
  }

  lemma WalkHooks(st: WgQuick.State, cfg: WgConfig.Settings)
    requires st.section == WgQuick.InterfaceSection
    requires st.iface.preUp == st.iface.postUp == st.iface.preDown == st.iface.postDown == ""
    ensures WgQuick.Walk(st, HooksRead(cfg))
         == st.(iface := st.iface.(preUp := HookText(cfg.preUp), postUp := HookText(cfg.postUp),
                                   preDown := HookText(cfg.preDown), postDown := HookText(cfg.postDown)))
  {
    var a, b := WgConfig.HookLinesOf(cfg.preUp), WgConfig.HookLinesOf(cfg.postUp);
    var c, d := WgConfig.HookLinesOf(cfg.preDown), WgConfig.HookLinesOf(cfg.postDown);
    HookLinesArePieces(cfg.preUp);
    HookLinesArePieces(cfg.postUp);
    HookLinesArePieces(cfg.preDown);
    HookLinesArePieces(cfg.postDown);
    var la, lb := HookSettings(PreUp, a), HookSettings(PostUp, b);
    var lc, ld := HookSettings(PreDown, c), HookSettings(PostDown, d);
    var s1 := st.(iface := SetHook(st.iface, PreUp, HookText(cfg.preUp)));
    var s2 := s1.(iface := SetHook(s1.iface, PostUp, HookText(cfg.postUp)));
    var s3 := s2.(iface := SetHook(s2.iface, PreDown, HookText(cfg.preDown)));
    var s4 := s3.(iface := SetHook(s3.iface, PostDown, HookText(cfg.postDown)));
    WalkHook(st, PreUp, a);
    WalkHook(s1, PostUp, b);
    WalkHook(s2, PreDown, c);
    WalkHook(s3, PostDown, d);
    WgQuick.WalkConcat(st, la, lb);
    WgQuick.WalkConcat(st, la + lb, lc);
    WgQuick.WalkConcat(st, la + lb + lc, ld);
    WgQuick.WalkConcat(st, la + lb + lc + ld, [WgQuick.Blank]);
    WgQuick.WalkOne(s4, WgQuick.Blank);
  }

  // ---------- The peer sections ----------

  /** What the parser keeps of a written user. */
  function PeerOf(name: string, u: WgConfig.User, keepalive: int): WgQuick.Peer
    requires WgConfig.Written(u)
  {
    WgQuick.Peer(name, u.publicKey.value,
                 if WgConfig.NotBlank(u.presharedKey) then u.presharedKey.value else "",
                 u.allowedIPs.value, "",
                 if keepalive > 0 then map["persistentkeepalive" := Numbers.PrintInt(keepalive)] else map[])
  }

  predicate WellFormedUser(name: string, u: WgConfig.User)
    requires WgConfig.Written(u)
  {
    Field(name) && Field(u.publicKey.value) && Field(u.allowedIPs.value)
    && (WgConfig.NotBlank(u.presharedKey) ==> Field(u.presharedKey.value))
  }

  predicate WellFormedUsers(users: WgConfig.Users)
  {
    forall name :: name in users && WgConfig.Written(users[name]) ==> WellFormedUser(name, users[name])
  }

  function PeerStartRead(name: string, key: string): seq<WgQuick.Line>
  {
    [WgQuick.Comment(if name == "" then None else Some(name)), WgQuick.Header("peer"), S("publickey", key)]
  }

  function PskRead(u: WgConfig.User): seq<WgQuick.Line>
  {
    if WgConfig.NotBlank(u.presharedKey) then [S("presharedkey", u.presharedKey.value)] else []
  }

  function KeepaliveRead(keepalive: int): seq<WgQuick.Line>
  {
    if keepalive > 0 then [S("persistentkeepalive", Numbers.PrintInt(keepalive))] else []
  }

  function PeerRead(name: string, u: WgConfig.User, keepalive: int): seq<WgQuick.Line>
    requires WgConfig.Written(u)
  {
    PeerStartRead(name, u.publicKey.value) + PskRead(u) + [S("allowedips", u.allowedIPs.value)]
    + KeepaliveRead(keepalive) + [WgQuick.Blank]
  }

  lemma PeerKeys()
    ensures Word("PublicKey") && Text.Lower("PublicKey") == "publickey"
    ensures Word("PresharedKey") && Text.Lower("PresharedKey") == "presharedkey"
    ensures Word("AllowedIPs") && Text.Lower("AllowedIPs") == "allowedips"
  {
  }

  lemma KeepaliveKey()
    ensures Word("PersistentKeepalive") && Text.Lower("PersistentKeepalive") == "persistentkeepalive"
  {
  }

  lemma ReadPeerStart(name: string, key: string)
    requires Text.Trimmed(name) && Text.Trimmed(key)
    ensures WgQuick.ReadsAs(WgConfig.PeerStartLines(name, key), PeerStartRead(name, key))
  {
    PeerKeys();
    ReadUserComment(name);
    ReadPeerHeader();
    ReadKv("PublicKey", "publickey", key);
    WgQuick.ReadsThree("# User: " + name, "[Peer]", WgConfig.KvLine("PublicKey", key),
                       WgQuick.Comment(if name == "" then None else Some(name)), WgQuick.Header("peer"),
                       S("publickey", key));
  }

  lemma ReadPskLines(u: WgConfig.User)
    requires WgConfig.NotBlank(u.presharedKey) ==> Field(u.presharedKey.value)
    ensures WgQuick.ReadsAs(WgConfig.PskLines(u), PskRead(u))
  {
    if WgConfig.NotBlank(u.presharedKey) {
      var v := u.presharedKey.value;
      PeerKeys();
      ReadKv("PresharedKey", "presharedkey", v);
      WgQuick.ReadsOne(WgConfig.KvLine("PresharedKey", v), S("presharedkey", v));
    }
  }

  lemma ReadKeepaliveLines(keepalive: int)
    ensures WgQuick.ReadsAs(WgConfig.KeepaliveLines(keepalive), KeepaliveRead(keepalive))
  {
    var v := Numbers.PrintInt(keepalive);
    KeepaliveKey();
    PrintIntIsField(keepalive);
    ReadKv("PersistentKeepalive", "persistentkeepalive", v);
    WgQuick.ReadsOne(WgConfig.KvLine("PersistentKeepalive", v), S("persistentkeepalive", v));
  }

  lemma ReadAllowedIPs(v: string)
    requires Text.Trimmed(v)
    ensures WgQuick.ReadsAs([WgConfig.KvLine("AllowedIPs", v)], [S("allowedips", v)])
  {
    PeerKeys();
    ReadKv("AllowedIPs", "allowedips", v);
    WgQuick.ReadsOne(WgConfig.KvLine("AllowedIPs", v), S("allowedips", v));
  }

  lemma ReadPeerLines(name: string, u: WgConfig.User, keepalive: int)
    requires WgConfig.Written(u) && WellFormedUser(name, u)
    ensures WgQuick.ReadsAs(WgConfig.PeerLines(name, u, keepalive), PeerRead(name, u, keepalive))
  {
    var a, la := WgConfig.PeerStartLines(name, u.publicKey.value), PeerStartRead(name, u.publicKey.value);
    var b, lb := WgConfig.PskLines(u), PskRead(u);
    var c, lc := [WgConfig.KvLine("AllowedIPs", u.allowedIPs.value)], [S("allowedips", u.allowedIPs.value)];
    var d, ld := WgConfig.KeepaliveLines(keepalive), KeepaliveRead(keepalive);
    ReadPeerStart(name, u.publicKey.value);
    ReadPskLines(u);
    ReadAllowedIPs(u.allowedIPs.value);
    ReadKeepaliveLines(keepalive);
    ReadBlank();
    WgQuick.ReadsOne("", WgQuick.Blank);
    WgQuick.ReadsAsFive(a, b, c, d, [""], la, lb, lc, ld, [WgQuick.Blank]);
  }

  lemma ApplyPeerBasics(p: WgQuick.Peer, v: string)
    requires Text.Trimmed(v)
    ensures WgQuick.ApplyPeerKV(p, WgQuick.KV("publickey", v)) == p.(publicKey := v)
    ensures WgQuick.ApplyPeerKV(p, WgQuick.KV("presharedkey", v)) == p.(presharedKey := v)
    ensures WgQuick.ApplyPeerKV(p, WgQuick.KV("allowedips", v)) == p.(allowedIPs := v)
    ensures WgQuick.ApplyPeerKV(p, WgQuick.KV("persistentkeepalive", v))
         == p.(otherKV := p.otherKV["persistentkeepalive" := v])
  {
    Text.TrimOfTrimmed(v);
  }

  lemma StepInPeer(st: WgQuick.State, kv: WgQuick.KV, p: WgQuick.Peer, q: WgQuick.Peer)
    requires st.section == WgQuick.PeerSection && st.cur == Some(p) && WgQuick.ApplyPeerKV(p, kv) == q
    ensures WgQuick.Step(st, WgQuick.Setting(kv)) == st.(cur := Some(q))
  {
  }

  /** The three lines that open a peer section. */
  lemma WalkPeerStart(st: WgQuick.State, name: string, key: string)
    requires st.pending == "" && Text.Trimmed(name) && Text.Trimmed(key)
    ensures WgQuick.Walk(st, PeerStartRead(name, key))
         == WgQuick.Flush(st).(section := WgQuick.PeerSection, pending := "",
                               cur := Some(WgQuick.NewPeer(name).(publicKey := key)))
  {
    Text.TrimOfTrimmed(name);
    var s2 := WgQuick.Flush(st).(section := WgQuick.PeerSection, pending := "", cur := Some(WgQuick.NewPeer(name)));
    ApplyPeerBasics(WgQuick.NewPeer(name), key);
    StepInPeer(s2, WgQuick.KV("publickey", key), WgQuick.NewPeer(name), WgQuick.NewPeer(name).(publicKey := key));
    WgQuick.WalkThree(st, WgQuick.Comment(if name == "" then None else Some(name)), WgQuick.Header("peer"),
                      S("publickey", key));
  }

  lemma WalkPsk(st: WgQuick.State, p: WgQuick.Peer, u: WgConfig.User)
    requires st.section == WgQuick.PeerSection && st.cur == Some(p) && p.presharedKey == ""
    requires WgConfig.NotBlank(u.presharedKey) ==> Field(u.presharedKey.value)
    ensures WgQuick.Walk(st, PskRead(u))
         == st.(cur := Some(p.(presharedKey := if WgConfig.NotBlank(u.presharedKey) then u.presharedKey.value else "")))
  {
    if WgConfig.NotBlank(u.presharedKey) {
      var v := u.presharedKey.value;
      ApplyPeerBasics(p, v);
      StepInPeer(st, WgQuick.KV("presharedkey", v), p, p.(presharedKey := v));
      WgQuick.WalkOne(st, S("presharedkey", v));
    }
  }

  lemma WalkKeepalive(st: WgQuick.State, p: WgQuick.Peer, keepalive: int)
    requires st.section == WgQuick.PeerSection && st.cur == Some(p) && p.otherKV == map[]
    ensures WgQuick.Walk(st, KeepaliveRead(keepalive))
         == st.(cur := Some(p.(otherKV := if keepalive > 0
                                          then map["persistentkeepalive" := Numbers.PrintInt(keepalive)]
                                          else map[])))
  {
    if keepalive > 0 {
      var v := Numbers.PrintInt(keepalive);
      PrintIntIsField(keepalive);
      ApplyPeerBasics(p, v);
      StepInPeer(st, WgQuick.KV("persistentkeepalive", v), p, p.(otherKV := map["persistentkeepalive" := v]));
      WgQuick.WalkOne(st, S("persistentkeepalive", v));
    }
  }

  /** One peer section: the peer before it is completed, this one becomes current. */
  lemma WalkPeer(st: WgQuick.State, name: string, u: WgConfig.User, keepalive: int)
    requires st.pending == "" && WgConfig.Written(u) && WellFormedUser(name, u)
    ensures WgQuick.Walk(st, PeerRead(name, u, keepalive))
         == WgQuick.Flush(st).(section := WgQuick.PeerSection, pending := "", cur := Some(PeerOf(name, u, keepalive)))
  {
    var start := PeerStartRead(name, u.publicKey.value);
    var ips := [S("allowedips", u.allowedIPs.value)];
    var goal := PeerOf(name, u, keepalive);
    var p1 := WgQuick.NewPeer(name).(publicKey := u.publicKey.value);
    var p2 := p1.(presharedKey := goal.presharedKey);
    var p3 := p2.(allowedIPs := u.allowedIPs.value);
    var base := WgQuick.Flush(st).(section := WgQuick.PeerSection, pending := "");
    WalkPeerStart(st, name, u.publicKey.value);
    WalkPsk(base.(cur := Some(p1)), p1, u);
    ApplyPeerBasics(p2, u.allowedIPs.value);
    StepInPeer(base.(cur := Some(p2)), WgQuick.KV("allowedips", u.allowedIPs.value), p2, p3);
    WgQuick.WalkOne(base.(cur := Some(p2)), ips[0]);
    WalkKeepalive(base.(cur := Some(p3)), p3, keepalive);
    WgQuick.WalkOne(base.(cur := Some(goal)), WgQuick.Blank);
    WgQuick.WalkConcat(st, start, PskRead(u));
    WgQuick.WalkConcat(st, start + PskRead(u), ips);
    WgQuick.WalkConcat(st, start + PskRead(u) + ips, KeepaliveRead(keepalive));
    WgQuick.WalkConcat(st, start + PskRead(u) + ips + KeepaliveRead(keepalive), [WgQuick.Blank]);
  }

  function SectionRead(users: WgConfig.Users, name: string, keepalive: int): seq<WgQuick.Line>
  {
    if name in users && WgConfig.Written(users[name]) then PeerRead(name, users[name], keepalive) else []
  }

  function AllRead(users: WgConfig.Users, names: seq<string>, keepalive: int): seq<WgQuick.Line>
  {
    if names == [] then []
    else AllRead(users, names[..|names| - 1], keepalive) + SectionRead(users, names[|names| - 1], keepalive)
  }

  /** The peers of the written users, in the order of `names`. */
  function PeersOf(users: WgConfig.Users, names: seq<string>, keepalive: int): seq<WgQuick.Peer>
  {
    if names == [] then []
    else
      var last := names[|names| - 1];
      PeersOf(users, names[..|names| - 1], keepalive)
      + if last in users && WgConfig.Written(users[last]) then [PeerOf(last, users[last], keepalive)] else []
  }

  lemma {:induction false} ReadAllPeers(users: WgConfig.Users, names: seq<string>, keepalive: int)
    requires WellFormedUsers(users)
    ensures WgQuick.ReadsAs(WgConfig.AllPeerLines(users, names, keepalive), AllRead(users, names, keepalive))
  {
    if names != [] {
      var n := |names| - 1;
      var name := names[n];
      ReadAllPeers(users, names[..n], keepalive);
      if name in users && WgConfig.Written(users[name]) {
        ReadPeerLines(name, users[name], keepalive);
      }
      WgQuick.ReadsAsConcat(WgConfig.AllPeerLines(users, names[..n], keepalive),
                            WgConfig.SectionOf(users, name, keepalive),
                            AllRead(users, names[..n], keepalive), SectionRead(users, name, keepalive));
    }
  }

  lemma {:induction false} WalkAllPeers(st: WgQuick.State, users: WgConfig.Users, names: seq<string>, keepalive: int)
    requires st.pending == "" && st.cur.None? && WellFormedUsers(users)
    ensures var t := WgQuick.Walk(st, AllRead(users, names, keepalive));
            t.pending == "" && t.iface == st.iface
            && WgQuick.Flush(t).peers == st.peers + PeersOf(users, names, keepalive)
  {
    if names != [] {
      var n := |names| - 1;
      var name := names[n];
      WalkAllPeers(st, users, names[..n], keepalive);
      var t := WgQuick.Walk(st, AllRead(users, names[..n], keepalive));
      WgQuick.WalkConcat(st, AllRead(users, names[..n], keepalive), SectionRead(users, name, keepalive));
      if name in users && WgConfig.Written(users[name]) {
        WalkPeer(t, name, users[name], keepalive);
        Text.ConcatAssociative(st.peers, PeersOf(users, names[..n], keepalive),
                               [PeerOf(name, users[name], keepalive)]);
      }
    }
  }

  // ---------- The whole file ----------

  const HEADER_READ: seq<WgQuick.Line> := [NOTE, NOTE, NOTE, WgQuick.Blank]
  const TITLE_READ: seq<WgQuick.Line> := [NOTE, WgQuick.Blank]

  lemma ReadHeaderTitle()
    ensures WgQuick.ReadLine("# WireGuard Server Configuration") == NOTE
  {
    ReadOtherComment("# WireGuard Server Configuration");
  }

  lemma ReadGeneratedAt(generatedAt: string)
    ensures WgQuick.ReadLine("# Generated at: " + generatedAt) == NOTE
  {
    ReadOtherComment("# Generated at: " + generatedAt);
  }

  lemma ReadDoNotEdit()
    ensures WgQuick.ReadLine(WgConfig.DO_NOT_EDIT) == NOTE
  {
    ReadOtherComment(WgConfig.DO_NOT_EDIT);
  }

  lemma ReadHeader(generatedAt: string)
    ensures WgQuick.ReadsAs(WgConfig.HeaderLines(generatedAt), HEADER_READ)
  {
    ReadHeaderTitle();
    ReadGeneratedAt(generatedAt);
    ReadDoNotEdit();
    ReadBlank();
    WgQuick.ReadsFour("# WireGuard Server Configuration", "# Generated at: " + generatedAt,
                      WgConfig.DO_NOT_EDIT, "", NOTE, NOTE, NOTE, WgQuick.Blank);
  }

  lemma ReadTitle()
    ensures WgQuick.ReadsAs(WgConfig.PEERS_TITLE, TITLE_READ)
  {
    var a := WgConfig.PEERS_TITLE[0];
    ReadOtherComment(a);
    ReadBlank();
    WgQuick.ReadsOne(a, NOTE);
    WgQuick.ReadsOne("", WgQuick.Blank);
    WgQuick.ReadsAsConcat([a], [""], [NOTE], [WgQuick.Blank]);
    assert [a] + [""] == WgConfig.PEERS_TITLE && [NOTE] + [WgQuick.Blank] == TITLE_READ;
  }

  lemma WalkNotes(st: WgQuick.State)
    ensures WgQuick.Walk(st, HEADER_READ) == st && WgQuick.Walk(st, TITLE_READ) == st
  {
    WgQuick.WalkOne(st, WgQuick.Blank);
    WgQuick.WalkOne(st, NOTE);
    WgQuick.WalkThree(st, NOTE, NOTE, NOTE);
    WgQuick.WalkConcat(st, [NOTE, NOTE, NOTE], [WgQuick.Blank]);
    WgQuick.WalkConcat(st, [NOTE], [WgQuick.Blank]);
    assert [NOTE, NOTE, NOTE] + [WgQuick.Blank] == HEADER_READ && [NOTE] + [WgQuick.Blank] == TITLE_READ;
  }

  function ConfigRead(server: WgConfig.Server, cfg: WgConfig.Settings, users: WgConfig.Users): seq<WgQuick.Line>
  {
    HEADER_READ + InterfaceRead(server, cfg) + HooksRead(cfg) + TITLE_READ
    + AllRead(users, Sorting.SortedKeys(users.Keys), cfg.persistentKeepalive)
  }

  lemma ReadConfig(server: WgConfig.Server, cfg: WgConfig.Settings, users: WgConfig.Users, generatedAt: string)
    requires WellFormedServer(server, cfg) && WellFormedUsers(users)
    ensures WgQuick.ReadsAs(WgConfig.ConfigLines(server, cfg, users, generatedAt), ConfigRead(server, cfg, users))
  {
    var names := Sorting.SortedKeys(users.Keys);
    ReadHeader(generatedAt);
    ReadInterfaceLines(server, cfg);
    ReadHooks(cfg);
    ReadTitle();
    ReadAllPeers(users, names, cfg.persistentKeepalive);
    WgQuick.ReadsAsFive(WgConfig.HeaderLines(generatedAt), WgConfig.InterfaceLines(server, cfg),
                        WgConfig.HookLines(cfg), WgConfig.PEERS_TITLE,
                        WgConfig.AllPeerLines(users, names, cfg.persistentKeepalive),
                        HEADER_READ, InterfaceRead(server, cfg), HooksRead(cfg), TITLE_READ,
                        AllRead(users, names, cfg.persistentKeepalive));
  }

  lemma WalkConfig(server: WgConfig.Server, cfg: WgConfig.Settings, users: WgConfig.Users)
    requires WellFormedServer(server, cfg) && WellFormedUsers(users)
    ensures var t := WgQuick.Flush(WgQuick.Walk(WgQuick.START, ConfigRead(server, cfg, users)));
            t.iface == InterfaceOf(server, cfg)
            && t.peers == PeersOf(users, Sorting.SortedKeys(users.Keys), cfg.persistentKeepalive)
  {
    var names := Sorting.SortedKeys(users.Keys);
    var a, b, c, d := HEADER_READ, InterfaceRead(server, cfg), HooksRead(cfg), TITLE_READ;
    var e := AllRead(users, names, cfg.persistentKeepalive);
    var st0 := WgQuick.START;
    var st1 := st0.(section := WgQuick.InterfaceSection, iface := BaseInterface(server, cfg));
    var st2 := st1.(iface := InterfaceOf(server, cfg));
    WalkNotes(st0);
    WalkInterface(server, cfg);
    WalkHooks(st1, cfg);
    WalkNotes(st2);
    WalkAllPeers(st2, users, names, cfg.persistentKeepalive);
    WgQuick.WalkConcat(st0, a, b);
    WgQuick.WalkConcat(st0, a + b, c);
    WgQuick.WalkConcat(st0, a + b + c, d);
    WgQuick.WalkConcat(st0, a + b + c + d, e);
  }

  // ---------- Every line stays one line ----------

  lemma FieldLine(prefix: string, v: string)
    requires '\n' !in prefix && prefix != "" && prefix[|prefix| - 1] != '\r' && Field(v)
    ensures Text.OneLine(prefix + v)
  {
    var s := prefix + v;
    if v != "" {
      assert s[|s| - 1] == v[|v| - 1];
    } else {
      assert s == prefix;
    }
  }

  lemma KvIsOneLine(key: string, v: string)
    requires Word(key) && Field(v)
    ensures Text.OneLine(WgConfig.KvLine(key, v))
  {
    var prefix := key + " = ";
    assert prefix[|prefix| - 1] == ' ';
    FieldLine(prefix, v);
    assert prefix + v == WgConfig.KvLine(key, v);
  }

  lemma LinesConcat(a: seq<string>, b: seq<string>)
    requires Text.AllOneLine(a) && Text.AllOneLine(b)
    ensures Text.AllOneLine(a + b)
  {
  }

  lemma LinesFive(a: seq<string>, b: seq<string>, c: seq<string>, d: seq<string>, e: seq<string>)
    requires Text.AllOneLine(a) && Text.AllOneLine(b) && Text.AllOneLine(c) && Text.AllOneLine(d)
    requires Text.AllOneLine(e)
    ensures Text.AllOneLine(a + b + c + d + e)
  {
    LinesConcat(a, b);
    LinesConcat(a + b, c);
    LinesConcat(a + b + c, d);
    LinesConcat(a + b + c + d, e);
  }

  lemma InterfaceIsLines(server: WgConfig.Server, cfg: WgConfig.Settings)
    requires WellFormedServer(server, cfg)
    ensures Text.AllOneLine(WgConfig.InterfaceLines(server, cfg))
  {
    InterfaceKeys();
    OptionalKeys();
    AddressIsField(cfg.serverAddress);
    PrintIntIsField(WgConfig.ListenPort(server, cfg));
    PrintIntIsField(cfg.mtu);
    KvIsOneLine("PrivateKey", server.privateKey);
    KvIsOneLine("ListenPort", Numbers.PrintInt(WgConfig.ListenPort(server, cfg)));
    KvIsOneLine("Address", WgConfig.ServerAddr(cfg.serverAddress));
    KvIsOneLine("DNS", cfg.dns);
    KvIsOneLine("MTU", Numbers.PrintInt(cfg.mtu));
    LinesConcat(["[Interface]"], WgConfig.BasicLines(server, cfg));
    LinesConcat(["[Interface]"] + WgConfig.BasicLines(server, cfg), WgConfig.DnsLines(cfg));
    LinesConcat(["[Interface]"] + WgConfig.BasicLines(server, cfg) + WgConfig.DnsLines(cfg), WgConfig.MtuLines(cfg));
  }

  lemma HookIsLines(h: Hook, value: string)
    ensures Text.AllOneLine(WgConfig.KvLines(HookKey(h), WgConfig.HookLinesOf(value)))
  {
    var values := WgConfig.HookLinesOf(value);
    HookKeys(h);
    HookLinesArePieces(value);
    forall i | 0 <= i < |values| {
      KvIsOneLine(HookKey(h), values[i]);
    }
  }

  lemma HooksAreLines(cfg: WgConfig.Settings)
    ensures Text.AllOneLine(WgConfig.HookLines(cfg))
  {
    HookIsLines(PreUp, cfg.preUp);
    HookIsLines(PostUp, cfg.postUp);
    HookIsLines(PreDown, cfg.preDown);
    HookIsLines(PostDown, cfg.postDown);
    LinesFive(WgConfig.KvLines("PreUp", WgConfig.HookLinesOf(cfg.preUp)),
              WgConfig.KvLines("PostUp", WgConfig.HookLinesOf(cfg.postUp)),
              WgConfig.KvLines("PreDown", WgConfig.HookLinesOf(cfg.preDown)),
              WgConfig.KvLines("PostDown", WgConfig.HookLinesOf(cfg.postDown)), [""]);
  }

  lemma PeerIsLines(name: string, u: WgConfig.User, keepalive: int)
    requires WgConfig.Written(u) && WellFormedUser(name, u)
    ensures Text.AllOneLine(WgConfig.PeerLines(name, u, keepalive))
  {
    PeerKeys();
    KeepaliveKey();
    FieldLine("# User: ", name);
    KvIsOneLine("PublicKey", u.publicKey.value);
    if WgConfig.NotBlank(u.presharedKey) {
      KvIsOneLine("PresharedKey", u.presharedKey.value);
    }
    KvIsOneLine("AllowedIPs", u.allowedIPs.value);
    PrintIntIsField(keepalive);
    KvIsOneLine("PersistentKeepalive", Numbers.PrintInt(keepalive));
    LinesFive(WgConfig.PeerStartLines(name, u.publicKey.value), WgConfig.PskLines(u),
              [WgConfig.KvLine("AllowedIPs", u.allowedIPs.value)], WgConfig.KeepaliveLines(keepalive), [""]);
  }

  lemma {:induction false} PeersAreLines(users: WgConfig.Users, names: seq<string>, keepalive: int)
    requires WellFormedUsers(users)
    ensures Text.AllOneLine(WgConfig.AllPeerLines(users, names, keepalive))
  {
    if names != [] {
      var n := |names| - 1;
      PeersAreLines(users, names[..n], keepalive);
      if names[n] in users && WgConfig.Written(users[names[n]]) {
        PeerIsLines(names[n], users[names[n]], keepalive);
      }
      LinesConcat(WgConfig.AllPeerLines(users, names[..n], keepalive), WgConfig.SectionOf(users, names[n], keepalive));
    }
  }

  lemma HeaderIsLines(generatedAt: string)
    requires Field(generatedAt)
    ensures Text.AllOneLine(WgConfig.HeaderLines(generatedAt))
  {
    var title := "# WireGuard Server Configuration";
    assert '\n' !in title && title[|title| - 1] == 'n';
    FieldLine("# Generated at: ", generatedAt);
    DoNotEditIsLine();
  }

  lemma TitleIsLines()
    ensures Text.AllOneLine(WgConfig.PEERS_TITLE)
  {
    var title := WgConfig.PEERS_TITLE[0];
    assert '\n' !in title && title[|title| - 1] == '=';
  }

  lemma DoNotEditIsLine()
    ensures Text.OneLine(WgConfig.DO_NOT_EDIT)
  {
    var a, b := "# DO NOT EDIT MANUALLY", " - This file is auto-generated";
    assert '\n' !in a && '\n' !in b && b[|b| - 1] == 'd';
  }

  lemma ConfigIsLines(server: WgConfig.Server, cfg: WgConfig.Settings, users: WgConfig.Users, generatedAt: string)
    requires WellFormedServer(server, cfg) && WellFormedUsers(users) && Field(generatedAt)
    ensures Text.AllOneLine(WgConfig.ConfigLines(server, cfg, users, generatedAt))
  {
    var names := Sorting.SortedKeys(users.Keys);
    HeaderIsLines(generatedAt);
    TitleIsLines();
    InterfaceIsLines(server, cfg);
    HooksAreLines(cfg);
    PeersAreLines(users, names, cfg.persistentKeepalive);
    LinesFive(WgConfig.HeaderLines(generatedAt), WgConfig.InterfaceLines(server, cfg), WgConfig.HookLines(cfg),
              WgConfig.PEERS_TITLE, WgConfig.AllPeerLines(users, names, cfg.persistentKeepalive));
  }

  // ---------- The theorem ----------

  lemma StepsOfConfig(server: WgConfig.Server, cfg: WgConfig.Settings, users: WgConfig.Users, generatedAt: string)
    requires WellFormedServer(server, cfg) && WellFormedUsers(users)
    ensures var t := WgQuick.Flush(WgQuick.Steps(WgQuick.START, WgConfig.ConfigLines(server, cfg, users, generatedAt)));
            t.iface == InterfaceOf(server, cfg)
            && t.peers == PeersOf(users, Sorting.SortedKeys(users.Keys), cfg.persistentKeepalive)
  {
    ReadConfig(server, cfg, users, generatedAt);
    WgQuick.StepsWalk(WgQuick.START, WgConfig.ConfigLines(server, cfg, users, generatedAt),
                      ConfigRead(server, cfg, users));
    WalkConfig(server, cfg, users);
  }

  lemma ScanConfig(server: WgConfig.Server, cfg: WgConfig.Settings, users: WgConfig.Users, generatedAt: string)
    requires WellFormedServer(server, cfg) && WellFormedUsers(users) && Field(generatedAt)
    ensures var lines := WgConfig.ConfigLines(server, cfg, users, generatedAt);
            Text.ScanLines(Text.Unlines(lines)) == lines
  {
    ConfigIsLines(server, cfg, users, generatedAt);
    Text.ScanUnlines(WgConfig.ConfigLines(server, cfg, users, generatedAt));
  }

  /**
   * Parsing the written file gives back the interface settings, the hooks with their lines trimmed
   * and blank ones dropped, and one peer for every written user.
   */
  lemma ParseUndoesWrite(server: WgConfig.Server, cfg: WgConfig.Settings, users: WgConfig.Users, generatedAt: string,
                         file: string)
    requires WellFormedServer(server, cfg) && WellFormedUsers(users) && Field(generatedAt)
    requires WgConfig.WrittenFile(Some(cfg), Some(server), users, generatedAt) == Some(file)
    ensures WgQuick.Parse(file)
         == Some(WgQuick.Config(InterfaceOf(server, cfg),
                                PeersOf(users, Sorting.SortedKeys(users.Keys), cfg.persistentKeepalive)))
  {
    ScanConfig(server, cfg, users, generatedAt);
    StepsOfConfig(server, cfg, users, generatedAt);
    KeyIsKept(server, cfg);
    WgQuick.ParseFrom(file, WgConfig.ConfigLines(server, cfg, users, generatedAt), InterfaceOf(server, cfg),
                      PeersOf(users, Sorting.SortedKeys(users.Keys), cfg.persistentKeepalive));
  }

  lemma KeyIsKept(server: WgConfig.Server, cfg: WgConfig.Settings)
    requires WellFormedServer(server, cfg)
    ensures Text.Trim(InterfaceOf(server, cfg).privateKey) != ""
  {
    Text.TrimOfTrimmed(server.privateKey);
  }

  /**
   * Peer `p` stands for the user of its name: an enabled WireGuard user with key and addresses, whose preshared
   * key counts unless blank. The endpoint stays open, and the keepalive is the configured one.
   */
  predicate IsPeerOf(p: WgQuick.Peer, users: WgConfig.Users, keepalive: int)
  {
    p.username in users
    && var u := users[p.username];
       && IsServed(u)
       && u.publicKey == Some(p.publicKey) && u.allowedIPs == Some(p.allowedIPs)
       && p.presharedKey == (if u.presharedKey.Some? && Text.Trim(u.presharedKey.value) != ""
                             then u.presharedKey.value else "")
       && p.endpoint == ""
       && p.otherKV == if keepalive > 0 then map["persistentkeepalive" := Numbers.PrintInt(keepalive)] else map[]
  }

  predicate IsServed(u: WgConfig.User)
  {
    u.wireguard && u.enabled && u.publicKey.Some? && u.publicKey.value != ""
    && u.allowedIPs.Some? && Text.Trim(u.allowedIPs.value) != ""
  }

  lemma {:induction false} PeersAreMembers(users: WgConfig.Users, names: seq<string>, keepalive: int)
    ensures forall p :: p in PeersOf(users, names, keepalive)
                        <==> p.username in names && IsPeerOf(p, users, keepalive)
  {
    if names != [] {
      var n := |names| - 1;
      PeersAreMembers(users, names[..n], keepalive);
      assert names == names[..n] + [names[n]];
    }
  }

  predicate ByName(ps: seq<WgQuick.Peer>)
  {
    forall i, j :: 0 <= i < j < |ps| ==> Sorting.Less(ps[i].username, ps[j].username)
  }

  lemma ByNameAppend(ps: seq<WgQuick.Peer>, p: WgQuick.Peer)
    requires ByName(ps) && forall q :: q in ps ==> Sorting.Less(q.username, p.username)
    ensures ByName(ps + [p])
  {
  }

  lemma {:induction false} PeersAreSorted(users: WgConfig.Users, names: seq<string>, keepalive: int)
    requires Sorting.Sorted(names)
    ensures ByName(PeersOf(users, names, keepalive))
  {
    if names != [] {
      var n := |names| - 1;
      var front := PeersOf(users, names[..n], keepalive);
      PeersAreSorted(users, names[..n], keepalive);
      PeersAreMembers(users, names[..n], keepalive);
      if names[n] in users && WgConfig.Written(users[names[n]]) {
        forall q | q in front ensures Sorting.Less(q.username, names[n]) {
          var k :| 0 <= k < n && names[..n][k] == q.username;
        }
        ByNameAppend(front, PeerOf(names[n], users[names[n]], keepalive));
      }
    }
  }

  /** The parsed peers are the served users and no others, by ascending username. */
  lemma PeersAreTheWrittenUsers(users: WgConfig.Users, keepalive: int)
    ensures var ps := PeersOf(users, Sorting.SortedKeys(users.Keys), keepalive);
            && (forall p :: p in ps <==> IsPeerOf(p, users, keepalive))
            && (forall name :: name in users && IsServed(users[name]) ==> exists p :: p in ps && p.username == name)
            && ByName(ps)
  {
    var names := Sorting.SortedKeys(users.Keys);
    PeersAreMembers(users, names, keepalive);
    PeersAreSorted(users, names, keepalive);
    forall name | name in users && IsServed(users[name])
      ensures exists p :: p in PeersOf(users, names, keepalive) && p.username == name
    {
      assert IsPeerOf(PeerOf(name, users[name], keepalive), users, keepalive);
    }
  }
}
