/** The client-side printer of `internal/wireguard/clientconf.go`, read back by the importer's parser. */
module ClientConf {
  import opened Wrappers
  import Allocator
  import Ipv4
  import Numbers
  import RoundTrip
  import Text
  import WgConfig
  import WgQuick

  datatype User = User(username: string, privateKey: Option<string>, allowedIPs: Option<string>,
                       presharedKey: Option<string>)

  datatype Server = Server(publicKey: string, host: string, port: int)

  datatype Settings = Settings(dns: string, allowedIPs: string, persistentKeepalive: int, mtu: int)

  datatype Outcome = Rendered(text: string, filename: string) | NoUser | NoPrivateKey | NoAddress | NoServer

  // ---------- Settings and their lines ----------

  type KV = WgQuick.KV

  function KvTexts(s: seq<KV>): (lines: seq<string>)
    ensures |lines| == |s|
  {
    seq(|s|, i requires 0 <= i < |s| => WgConfig.KvLine(s[i].key, s[i].value))
  }

  function Opt(on: bool, key: string, value: string): seq<KV>
  {
    if on then [WgQuick.KV(key, value)] else []
  }

  function ClientAllowedIPs(cfg: Settings): string
  {
    if Text.Trim(cfg.allowedIPs) == "" then "0.0.0.0/0, ::/0" else Text.Trim(cfg.allowedIPs)
  }

  function Endpoint(server: Server): string
  {
    Text.Trim(server.host) + ":" + Numbers.PrintInt(server.port)
  }

  function InterfaceSettings(privateKey: string, address: string, cfg: Settings): seq<KV>
  {
    [WgQuick.KV("PrivateKey", Text.Trim(privateKey)), WgQuick.KV("Address", address)]
    + Opt(Text.Trim(cfg.dns) != "", "DNS", Text.Trim(cfg.dns))
    + Opt(cfg.mtu > 0, "MTU", Numbers.PrintInt(cfg.mtu))
  }

  function PeerSettings(server: Server, psk: Option<string>, cfg: Settings): seq<KV>
  {
    PeerKeySettings(server, psk)
    + [WgQuick.KV("Endpoint", Endpoint(server)), WgQuick.KV("AllowedIPs", ClientAllowedIPs(cfg))]
    + Opt(cfg.persistentKeepalive > 0, "PersistentKeepalive", Numbers.PrintInt(cfg.persistentKeepalive))
  }

  const INTERFACE: seq<string> := ["[Interface]"]
  const PEER: seq<string> := ["", "[Peer]"]

  function Lines(iface: seq<KV>, peer: seq<KV>): seq<string>
  {
    INTERFACE + KvTexts(iface) + PEER + KvTexts(peer) + [""]
  }

  function Render(user: Option<User>, server: Option<Server>, cfg: Settings): Outcome
  {
    if user.None? then NoUser
    else
      var u := user.value;
      if !WgConfig.NotBlank(u.privateKey) then NoPrivateKey
      else if !WgConfig.NotBlank(u.allowedIPs) || Ipv4.FirstTunnelIPCIDR(u.allowedIPs.value) == "" then NoAddress
      else if server.None? then NoServer
      else
        var iface := InterfaceSettings(u.privateKey.value, Ipv4.FirstTunnelIPCIDR(u.allowedIPs.value), cfg);
        var peer := PeerSettings(server.value, u.presharedKey, cfg);
        Rendered(Text.Unlines(Lines(iface, peer)), u.username + ".conf")
  }

  // ---------- Writing ----------

  lemma KvTextsNext(s: seq<KV>, kv: KV)
    ensures KvTexts(s + [kv]) == KvTexts(s) + [WgConfig.KvLine(kv.key, kv.value)]
  {
  }

  /** One `Key = value` line behind those written since `head`. */
  method Put(buf: WgConfig.Buffer, key: string, value: string, ghost head: seq<string>, ghost s: seq<KV>)
    returns (ghost t: seq<KV>)
    requires buf.lines == head + KvTexts(s)
    modifies buf
    ensures t == s + [WgQuick.KV(key, value)] && buf.lines == head + KvTexts(t)
  {
    buf.WriteLine(WgConfig.KvLine(key, value));
    KvTextsNext(s, WgQuick.KV(key, value));
    t := s + [WgQuick.KV(key, value)];
  }

  method WriteInterface(buf: WgConfig.Buffer, privateKey: string, address: string, cfg: Settings)
    requires buf.lines == []
    modifies buf
    ensures buf.lines == INTERFACE + KvTexts(InterfaceSettings(privateKey, address, cfg))
  {
    buf.WriteLine("[Interface]");
    ghost var s := Put(buf, "PrivateKey", Text.Trim(privateKey), INTERFACE, []);
    s := Put(buf, "Address", address, INTERFACE, s);
    if Text.Trim(cfg.dns) != "" {
      s := Put(buf, "DNS", Text.Trim(cfg.dns), INTERFACE, s);
    }
    if cfg.mtu > 0 {
      s := Put(buf, "MTU", Numbers.PrintInt(cfg.mtu), INTERFACE, s);
    }
    assert s == InterfaceSettings(privateKey, address, cfg);
  }

  /** The settings of the peer up to the preshared key. */
  function PeerKeySettings(server: Server, psk: Option<string>): seq<KV>
  {
    [WgQuick.KV("PublicKey", Text.Trim(server.publicKey))]
    + Opt(WgConfig.NotBlank(psk), "PresharedKey", if psk.Some? then Text.Trim(psk.value) else "")
  }

  method WritePeerKeys(buf: WgConfig.Buffer, server: Server, psk: Option<string>)
    modifies buf
    ensures buf.lines == old(buf.lines) + PEER + KvTexts(PeerKeySettings(server, psk))
  {
    ghost var head := buf.lines + PEER;
    buf.WriteLine("");
    buf.WriteLine("[Peer]");
    ghost var s := Put(buf, "PublicKey", Text.Trim(server.publicKey), head, []);
    if WgConfig.NotBlank(psk) {
      s := Put(buf, "PresharedKey", Text.Trim(psk.value), head, s);
    }
    assert s == PeerKeySettings(server, psk);
  }

  method WritePeer(buf: WgConfig.Buffer, server: Server, psk: Option<string>, cfg: Settings)
    modifies buf
    ensures buf.lines == old(buf.lines) + PEER + KvTexts(PeerSettings(server, psk, cfg))
  {
    ghost var head, keys := buf.lines + PEER, PeerKeySettings(server, psk);
    WritePeerKeys(buf, server, psk);
    ghost var s := Put(buf, "Endpoint", Endpoint(server), head, keys);
    s := Put(buf, "AllowedIPs", ClientAllowedIPs(cfg), head, s);
    assert s == keys + [WgQuick.KV("Endpoint", Endpoint(server)), WgQuick.KV("AllowedIPs", ClientAllowedIPs(cfg))];
    if cfg.persistentKeepalive > 0 {
      s := Put(buf, "PersistentKeepalive", Numbers.PrintInt(cfg.persistentKeepalive), head, s);
    }
  }

  method RenderClientConfig(user: Option<User>, server: Option<Server>, cfg: Settings) returns (out: Outcome)
    ensures out == Render(user, server, cfg)
  {
    if user.None? {
      return NoUser;
    }
    var u := user.value;
    if !WgConfig.NotBlank(u.privateKey) {
      return NoPrivateKey;
    }
    if !WgConfig.NotBlank(u.allowedIPs) {
      return NoAddress;
    }
    var address := Ipv4.FirstTunnelIPCIDR(u.allowedIPs.value);
    if address == "" {
      return NoAddress;
    }
    if server.None? {
      return NoServer;
    }
    var buf := new WgConfig.Buffer();
    WriteInterface(buf, u.privateKey.value, address, cfg);
    WritePeer(buf, server.value, u.presharedKey, cfg);
    buf.WriteLine("");
    out := Rendered(buf.Bytes(), u.username + ".conf");
  }

  // ---------- Reading settings back ----------

  function Lowered(kv: KV): KV
  {
    WgQuick.KV(Text.Lower(kv.key), kv.value)
  }

  function SettingsRead(s: seq<KV>): seq<WgQuick.Line>
  {
    seq(|s|, i requires 0 <= i < |s| => WgQuick.Setting(Lowered(s[i])))
  }

  predicate Clean(s: seq<KV>)
  {
    forall i :: 0 <= i < |s| ==> RoundTrip.Word(s[i].key) && RoundTrip.Field(s[i].value)
  }

  lemma ReadSettings(s: seq<KV>)
    requires Clean(s)
    ensures WgQuick.ReadsAs(KvTexts(s), SettingsRead(s)) && Text.AllOneLine(KvTexts(s))
  {
    forall i | 0 <= i < |s|
      ensures WgQuick.ReadLine(KvTexts(s)[i]) == SettingsRead(s)[i] && Text.OneLine(KvTexts(s)[i])
    {
      RoundTrip.ReadKvLine(s[i].key, s[i].value);
      RoundTrip.KvIsOneLine(s[i].key, s[i].value);
    }
  }

  function OnInterface(intf: WgQuick.Interface, s: seq<KV>): WgQuick.Interface
  {
    if s == [] then intf
    else WgQuick.ApplyInterfaceKV(OnInterface(intf, s[..|s| - 1]), Lowered(s[|s| - 1]))
  }

  function OnPeer(p: WgQuick.Peer, s: seq<KV>): WgQuick.Peer
  {
    if s == [] then p else WgQuick.ApplyPeerKV(OnPeer(p, s[..|s| - 1]), Lowered(s[|s| - 1]))
  }

  lemma SettingsReadSplit(s: seq<KV>)
    requires s != []
    ensures var n := |s| - 1;
            SettingsRead(s) == SettingsRead(s[..n]) + [WgQuick.Setting(Lowered(s[n]))]
  {
  }

  lemma {:induction false} WalkInterface(st: WgQuick.State, s: seq<KV>)
    requires st.section == WgQuick.InterfaceSection
    ensures WgQuick.Walk(st, SettingsRead(s)) == st.(iface := OnInterface(st.iface, s))
  {
    if s != [] {
      var n := |s| - 1;
      var last := WgQuick.Setting(Lowered(s[n]));
      WalkInterface(st, s[..n]);
      SettingsReadSplit(s);
      WgQuick.WalkConcat(st, SettingsRead(s[..n]), [last]);
      WgQuick.WalkOne(st.(iface := OnInterface(st.iface, s[..n])), last);
    }
  }

  lemma {:induction false} WalkPeer(st: WgQuick.State, p: WgQuick.Peer, s: seq<KV>)
    requires st.section == WgQuick.PeerSection && st.cur == Some(p)
    ensures WgQuick.Walk(st, SettingsRead(s)) == st.(cur := Some(OnPeer(p, s)))
  {
    if s != [] {
      var n := |s| - 1;
      var last := WgQuick.Setting(Lowered(s[n]));
      WalkPeer(st, p, s[..n]);
      SettingsReadSplit(s);
      WgQuick.WalkConcat(st, SettingsRead(s[..n]), [last]);
      WgQuick.WalkOne(st.(cur := Some(OnPeer(p, s[..n]))), last);
    }
  }

  const INTERFACE_READ: seq<WgQuick.Line> := [WgQuick.Header("interface")]
  const PEER_READ: seq<WgQuick.Line> := [WgQuick.Blank, WgQuick.Header("peer")]

  function LinesRead(iface: seq<KV>, peer: seq<KV>): seq<WgQuick.Line>
  {
    INTERFACE_READ + SettingsRead(iface) + PEER_READ + SettingsRead(peer) + [WgQuick.Blank]
  }

  lemma ReadLines(iface: seq<KV>, peer: seq<KV>)
    requires Clean(iface) && Clean(peer)
    ensures WgQuick.ReadsAs(Lines(iface, peer), LinesRead(iface, peer)) && Text.AllOneLine(Lines(iface, peer))
  {
    ReadSettings(iface);
    ReadSettings(peer);
    RoundTrip.ReadInterfaceHeader();
    RoundTrip.ReadPeerHeader();
    RoundTrip.ReadBlank();
    WgQuick.ReadsOne("[Interface]", WgQuick.Header("interface"));
    WgQuick.ReadsOne("", WgQuick.Blank);
    assert WgQuick.ReadsAs(PEER, PEER_READ);
    WgQuick.ReadsAsFive(INTERFACE, KvTexts(iface), PEER, KvTexts(peer), [""],
                        INTERFACE_READ, SettingsRead(iface), PEER_READ, SettingsRead(peer), [WgQuick.Blank]);
    HeadersAreLines();
    RoundTrip.LinesFive(INTERFACE, KvTexts(iface), PEER, KvTexts(peer), [""]);
  }

  lemma HeadersAreLines()
    ensures Text.AllOneLine(INTERFACE) && Text.AllOneLine(PEER) && Text.AllOneLine([""])
  {
    assert '\n' !in "[Interface]" && '\n' !in "[Peer]";
  }

  lemma WalkLines(iface: seq<KV>, peer: seq<KV>)
    ensures var t := WgQuick.Flush(WgQuick.Walk(WgQuick.START, LinesRead(iface, peer)));
            t.iface == OnInterface(WgQuick.NO_INTERFACE, iface)
            && t.peers == [OnPeer(WgQuick.NewPeer(""), peer)]
  {
    var a, b, c, d := INTERFACE_READ, SettingsRead(iface), PEER_READ, SettingsRead(peer);
    var s0 := WgQuick.START;
    var s1 := s0.(section := WgQuick.InterfaceSection);
    var s2 := s1.(iface := OnInterface(s1.iface, iface));
    var s3 := s2.(section := WgQuick.PeerSection, cur := Some(WgQuick.NewPeer("")));
    var s4 := s3.(cur := Some(OnPeer(WgQuick.NewPeer(""), peer)));
    WgQuick.WalkOne(s0, WgQuick.Header("interface"));
    WalkInterface(s1, iface);
    WgQuick.WalkOne(s2, WgQuick.Blank);
    WgQuick.WalkOne(s2, WgQuick.Header("peer"));
    WgQuick.WalkConcat(s2, [WgQuick.Blank], [WgQuick.Header("peer")]);
    assert [WgQuick.Blank] + [WgQuick.Header("peer")] == PEER_READ;
    WalkPeer(s3, WgQuick.NewPeer(""), peer);
    WgQuick.WalkOne(s4, WgQuick.Blank);
    WgQuick.WalkConcat(s0, a, b);
    WgQuick.WalkConcat(s0, a + b, c);
    WgQuick.WalkConcat(s0, a + b + c, d);
    WgQuick.WalkConcat(s0, a + b + c + d, [WgQuick.Blank]);
  }

  /** A file of an interface and a peer section parses to what the settings say. */
  lemma ParseLines(iface: seq<KV>, peer: seq<KV>, intf: WgQuick.Interface, p: WgQuick.Peer)
    requires Clean(iface) && Clean(peer)
    requires OnInterface(WgQuick.NO_INTERFACE, iface) == intf && Text.Trim(intf.privateKey) != ""
    requires OnPeer(WgQuick.NewPeer(""), peer) == p
    ensures WgQuick.Parse(Text.Unlines(Lines(iface, peer))) == Some(WgQuick.Config(intf, [p]))
  {
    ReadLines(iface, peer);
    Text.ScanUnlines(Lines(iface, peer));
    WgQuick.StepsWalk(WgQuick.START, Lines(iface, peer), LinesRead(iface, peer));
    WalkLines(iface, peer);
    WgQuick.ParseFrom(Text.Unlines(Lines(iface, peer)), Lines(iface, peer), intf, [p]);
  }

  // ---------- What the client's file says ----------

  lemma OnInterfaceNext(intf: WgQuick.Interface, s: seq<KV>, on: bool, key: string, value: string)
    ensures OnInterface(intf, s + Opt(on, key, value))
         == if on then WgQuick.ApplyInterfaceKV(OnInterface(intf, s), WgQuick.KV(Text.Lower(key), value))
            else OnInterface(intf, s)
  {
    if on {
      assert (s + [WgQuick.KV(key, value)])[..|s|] == s;
    } else {
      assert s + [] == s;
    }
  }

  lemma OnPeerNext(p: WgQuick.Peer, s: seq<KV>, on: bool, key: string, value: string)
    ensures OnPeer(p, s + Opt(on, key, value))
         == if on then WgQuick.ApplyPeerKV(OnPeer(p, s), WgQuick.KV(Text.Lower(key), value)) else OnPeer(p, s)
  {
    if on {
      assert (s + [WgQuick.KV(key, value)])[..|s|] == s;
    } else {
      assert s + [] == s;
    }
  }

  /** The interface of the client. */
  function ClientInterface(privateKey: string, address: string, cfg: Settings): WgQuick.Interface
  {
    WgQuick.NO_INTERFACE.(privateKey := Text.Trim(privateKey), address := address, dns := Text.Trim(cfg.dns),
                          mtu := if cfg.mtu > 0 then cfg.mtu else 0)
  }

  /** The server as the client's only peer. */
  function ServerPeer(server: Server, psk: Option<string>, cfg: Settings): WgQuick.Peer
  {
    WgQuick.Peer("", Text.Trim(server.publicKey), if psk.Some? then Text.Trim(psk.value) else "",
                 if Text.Trim(cfg.allowedIPs) == "" then "0.0.0.0/0, ::/0" else Text.Trim(cfg.allowedIPs),
                 Text.Trim(server.host) + ":" + Numbers.PrintInt(server.port),
                 if cfg.persistentKeepalive > 0
                 then map["persistentkeepalive" := Numbers.PrintInt(cfg.persistentKeepalive)] else map[])
  }

  lemma InterfaceMeant(privateKey: string, address: string, cfg: Settings)
    requires Text.Trimmed(address) && RoundTrip.Int64(cfg.mtu)
    ensures OnInterface(WgQuick.NO_INTERFACE, InterfaceSettings(privateKey, address, cfg))
         == ClientInterface(privateKey, address, cfg)
  {
    var i0 := WgQuick.NO_INTERFACE;
    var key, dns := Text.Trim(privateKey), Text.Trim(cfg.dns);
    var a := Opt(true, "PrivateKey", key);
    var b := a + Opt(true, "Address", address);
    var c := b + Opt(dns != "", "DNS", dns);
    RoundTrip.InterfaceKeys();
    RoundTrip.OptionalKeys();
    Text.TrimIsTrimmed(privateKey);
    Text.TrimIsTrimmed(cfg.dns);
    OnInterfaceNext(i0, [], true, "PrivateKey", key);
    OnInterfaceNext(i0, a, true, "Address", address);
    OnInterfaceNext(i0, b, dns != "", "DNS", dns);
    OnInterfaceNext(i0, c, cfg.mtu > 0, "MTU", Numbers.PrintInt(cfg.mtu));
    assert [] + a == a && b == [WgQuick.KV("PrivateKey", key), WgQuick.KV("Address", address)];
    var i1 := i0.(privateKey := key);
    var i2 := i1.(address := address);
    RoundTrip.ApplyBasics(i0, key);
    RoundTrip.ApplyBasics(i1, address);
    RoundTrip.ApplyBasics(i2, dns);
    RoundTrip.ApplyNumbers(i2.(dns := dns), cfg.mtu);
  }

  lemma EndpointKey()
    ensures RoundTrip.Word("Endpoint") && Text.Lower("Endpoint") == "endpoint"
  {
  }

  lemma ApplyEndpoint(p: WgQuick.Peer, v: string)
    requires Text.Trimmed(v)
    ensures WgQuick.ApplyPeerKV(p, WgQuick.KV("endpoint", v)) == p.(endpoint := v)
  {
    Text.TrimOfTrimmed(v);
  }

  /** The peer that the key settings alone make. */
  function KeyedPeer(server: Server, psk: Option<string>): WgQuick.Peer
  {
    WgQuick.NewPeer("").(publicKey := Text.Trim(server.publicKey),
                         presharedKey := if psk.Some? then Text.Trim(psk.value) else "")
  }

  lemma PeerKeysMeant(server: Server, psk: Option<string>)
    ensures OnPeer(WgQuick.NewPeer(""), PeerKeySettings(server, psk)) == KeyedPeer(server, psk)
  {
    var p0 := WgQuick.NewPeer("");
    var pub, secret := Text.Trim(server.publicKey), if psk.Some? then Text.Trim(psk.value) else "";
    var a := Opt(true, "PublicKey", pub);
    RoundTrip.PeerKeys();
    Text.TrimIsTrimmed(server.publicKey);
    if psk.Some? {
      Text.TrimIsTrimmed(psk.value);
    }
    OnPeerNext(p0, [], true, "PublicKey", pub);
    OnPeerNext(p0, a, WgConfig.NotBlank(psk), "PresharedKey", secret);
    assert [] + a == a;
    RoundTrip.ApplyPeerBasics(p0, pub);
    RoundTrip.ApplyPeerBasics(p0.(publicKey := pub), secret);
  }

  lemma EndpointMeant(p: WgQuick.Peer, s: seq<KV>, endpoint: string, ips: string)
    requires Text.Trimmed(endpoint) && Text.Trimmed(ips)
    ensures OnPeer(p, s + [WgQuick.KV("Endpoint", endpoint), WgQuick.KV("AllowedIPs", ips)])
         == OnPeer(p, s).(endpoint := endpoint, allowedIPs := ips)
  {
    var c := s + Opt(true, "Endpoint", endpoint);
    var q := OnPeer(p, s);
    RoundTrip.PeerKeys();
    EndpointKey();
    OnPeerNext(p, s, true, "Endpoint", endpoint);
    OnPeerNext(p, c, true, "AllowedIPs", ips);
    assert c + Opt(true, "AllowedIPs", ips) == s + [WgQuick.KV("Endpoint", endpoint), WgQuick.KV("AllowedIPs", ips)];
    ApplyEndpoint(q, endpoint);
    RoundTrip.ApplyPeerBasics(q.(endpoint := endpoint), ips);
  }

  lemma PeerMeant(server: Server, psk: Option<string>, cfg: Settings)
    requires Text.Trimmed(Endpoint(server)) && Text.Trimmed(ClientAllowedIPs(cfg))
    ensures OnPeer(WgQuick.NewPeer(""), PeerSettings(server, psk, cfg)) == ServerPeer(server, psk, cfg)
  {
    var p0, keys := WgQuick.NewPeer(""), PeerKeySettings(server, psk);
    var ips, alive := ClientAllowedIPs(cfg), Numbers.PrintInt(cfg.persistentKeepalive);
    var d := keys + [WgQuick.KV("Endpoint", Endpoint(server)), WgQuick.KV("AllowedIPs", ips)];
    PeerKeysMeant(server, psk);
    EndpointMeant(p0, keys, Endpoint(server), ips);
    RoundTrip.KeepaliveKey();
    RoundTrip.PrintIntIsField(cfg.persistentKeepalive);
    OnPeerNext(p0, d, cfg.persistentKeepalive > 0, "PersistentKeepalive", alive);
    RoundTrip.ApplyPeerBasics(OnPeer(p0, d), alive);
  }

  /** Trimmed values without line breaks inside. */
  predicate SingleLine(user: User, server: Server, cfg: Settings)
  {
    (user.privateKey.Some? ==> '\n' !in Text.Trim(user.privateKey.value))
    && (user.allowedIPs.Some? ==> '\n' !in Ipv4.FirstTunnelIPCIDR(user.allowedIPs.value))
    && (user.presharedKey.Some? ==> '\n' !in Text.Trim(user.presharedKey.value))
    && '\n' !in Text.Trim(server.publicKey) && '\n' !in Text.Trim(server.host)
    && '\n' !in Text.Trim(cfg.dns) && '\n' !in Text.Trim(cfg.allowedIPs) && RoundTrip.Int64(cfg.mtu)
  }

  lemma EndpointIsField(server: Server)
    requires '\n' !in Text.Trim(server.host)
    ensures RoundTrip.Field(Endpoint(server))
  {
    var host, port := Text.Trim(server.host), Numbers.PrintInt(server.port);
    Text.TrimIsTrimmed(server.host);
    RoundTrip.PrintIntIsField(server.port);
    assert Endpoint(server)[|Endpoint(server)| - 1] == port[|port| - 1];
    assert host != "" ==> Endpoint(server)[0] == host[0];
    assert host == "" ==> Endpoint(server)[0] == ':';
  }

  lemma AllowedIsField(cfg: Settings)
    requires '\n' !in Text.Trim(cfg.allowedIPs)
    ensures RoundTrip.Field(ClientAllowedIPs(cfg))
  {
    Text.TrimIsTrimmed(cfg.allowedIPs);
    var every := "0.0.0.0/0, ::/0";
    assert '\n' !in every && every[0] == '0' && every[|every| - 1] == '0';
  }

  lemma InterfaceIsClean(privateKey: string, address: string, cfg: Settings)
    requires '\n' !in Text.Trim(privateKey) && RoundTrip.Field(address) && '\n' !in Text.Trim(cfg.dns)
    ensures Clean(InterfaceSettings(privateKey, address, cfg))
  {
    RoundTrip.InterfaceKeys();
    RoundTrip.OptionalKeys();
    Text.TrimIsTrimmed(privateKey);
    Text.TrimIsTrimmed(cfg.dns);
    RoundTrip.PrintIntIsField(cfg.mtu);
  }

  lemma PeerIsClean(server: Server, psk: Option<string>, cfg: Settings)
    requires '\n' !in Text.Trim(server.publicKey) && (psk.Some? ==> '\n' !in Text.Trim(psk.value))
    requires RoundTrip.Field(Endpoint(server)) && RoundTrip.Field(ClientAllowedIPs(cfg))
    ensures Clean(PeerSettings(server, psk, cfg))
  {
    RoundTrip.PeerKeys();
    RoundTrip.KeepaliveKey();
    EndpointKey();
    Text.TrimIsTrimmed(server.publicKey);
    if psk.Some? {
      Text.TrimIsTrimmed(psk.value);
    }
    RoundTrip.PrintIntIsField(cfg.persistentKeepalive);
  }

  /** There is a file exactly for a user with private key and address, on a server; it bears the user's name. */
  lemma RenderedExactly(user: Option<User>, server: Option<Server>, cfg: Settings)
    ensures Render(user, server, cfg).Rendered?
       <==> user.Some? && server.Some? && user.value.privateKey.Some? && user.value.allowedIPs.Some?
            && Text.Trim(user.value.privateKey.value) != ""
            && Ipv4.FirstTunnelIPCIDR(user.value.allowedIPs.value) != ""
    ensures Render(user, server, cfg).Rendered? ==> Render(user, server, cfg).filename == user.value.username + ".conf"
  {
    if user.Some? && user.value.allowedIPs.Some? {
      BlankHasNoSegment(user.value.allowedIPs.value);
    }
  }

  /** A rendered file parses back to the client's interface and one peer, the server. */
  lemma RenderedReadsBack(user: User, server: Server, cfg: Settings)
    requires Render(Some(user), Some(server), cfg).Rendered? && SingleLine(user, server, cfg)
    ensures WgQuick.Parse(Render(Some(user), Some(server), cfg).text)
         == Some(WgQuick.Config(
                   ClientInterface(user.privateKey.value, Ipv4.FirstTunnelIPCIDR(user.allowedIPs.value), cfg),
                   [ServerPeer(server, user.presharedKey, cfg)]))
  {
    var key, address := user.privateKey.value, Ipv4.FirstTunnelIPCIDR(user.allowedIPs.value);
    Ipv4.FirstIsTrimmed(user.allowedIPs.value);
    EndpointIsField(server);
    AllowedIsField(cfg);
    InterfaceIsClean(key, address, cfg);
    PeerIsClean(server, user.presharedKey, cfg);
    InterfaceMeant(key, address, cfg);
    PeerMeant(server, user.presharedKey, cfg);
    Text.TrimIsTrimmed(key);
    Text.TrimOfTrimmed(Text.Trim(key));
    ParseLines(InterfaceSettings(key, address, cfg), PeerSettings(server, user.presharedKey, cfg),
               ClientInterface(key, address, cfg), ServerPeer(server, user.presharedKey, cfg));
  }

  /**
   * An allocated address reaches the client: after any run without the user's deletion, the rendered file
   * still gives the address that the user was created with.
   */
  lemma AddressReachesTheClient(s: Allocator.State, events: seq<Allocator.Event>, id: string, user: User,
                                server: Server, cfg: Settings)
    requires Allocator.Inv(s.users) && Allocator.Legal(s, events)
    requires id in s.users && Allocator.Delete(id) !in events
    requires var t := Allocator.After(s, events);
             id in t.users ==> user.allowedIPs == Some(t.users[id])
    requires WgConfig.NotBlank(user.privateKey)
    requires SingleLine(user.(allowedIPs := None), server, cfg)
    ensures var out := Render(Some(user), Some(server), cfg);
            out.Rendered? && WgQuick.Parse(out.text).Some?
            && WgQuick.Parse(out.text).value.iface.address
               == Ipv4.String(Allocator.AddressOf(s.users[id]).value) + "/32"
  {
    var ip := Allocator.AddressOf(s.users[id]).value;
    Allocator.OneTunnelAddress(s, events, id);
    ColumnRenders(user, server, cfg, ip);
  }

  lemma ColumnRenders(user: User, server: Server, cfg: Settings, ip: Ipv4.Ip)
    requires user.allowedIPs.Some? && Ipv4.FirstTunnelIPCIDR(user.allowedIPs.value) == Ipv4.String(ip) + "/32"
    requires WgConfig.NotBlank(user.privateKey)
    requires SingleLine(user.(allowedIPs := None), server, cfg)
    ensures var out := Render(Some(user), Some(server), cfg);
            out.Rendered? && WgQuick.Parse(out.text).Some?
            && WgQuick.Parse(out.text).value.iface.address == Ipv4.String(ip) + "/32"
  {
    var host := Ipv4.String(ip) + "/32";
    forall c | c in host ensures c != '\n' {
      if c in Ipv4.String(ip) {
        Ipv4.StringCharacters(ip, c);
      }
    }
    BlankHasNoSegment(user.allowedIPs.value);
    RenderedReadsBack(user, server, cfg);
  }

  lemma BlankHasNoSegment(allowedIPs: string)
    ensures Text.Trim(allowedIPs) == "" ==> Ipv4.FirstTunnelIPCIDR(allowedIPs) == ""
  {
  }
}
