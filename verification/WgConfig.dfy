/** The writer of `internal/wireguard/config.go`: wg0.conf from the server settings and the user table. */
module WgConfig {
  import opened Wrappers
  import Ipv4
  import Numbers
  import Sorting
  import Text

  datatype Settings = Settings(enabled: bool, serverPort: int, serverAddress: string, dns: string, mtu: int,
                               persistentKeepalive: int,
                               preUp: string, postUp: string, preDown: string, postDown: string)

  datatype Server = Server(privateKey: string, port: int)

  /** A row of vpn_users, which is keyed by its unique username. */
  datatype User = User(wireguard: bool, enabled: bool, publicKey: Option<string>, presharedKey: Option<string>,
                       allowedIPs: Option<string>, endpoint: Option<string>)

  type Users = map<string, User>

  function NotBlank(s: Option<string>): bool
  {
    s.Some? && Text.Trim(s.value) != ""
  }

  /** The rows the query selects. */
  predicate Selected(u: User)
  {
    u.wireguard && u.enabled && u.publicKey.Some? && u.publicKey.value != ""
  }

  /** The rows that get a peer section. */
  predicate Written(u: User)
  {
    Selected(u) && NotBlank(u.allowedIPs)
  }

  // ---------- Lines ----------

  function KvLine(key: string, value: string): string
  {
    key + (" = " + value)
  }

  function HookValues(pieces: seq<string>): seq<string>
  {
    if pieces == [] then []
    else HookValues(pieces[..|pieces| - 1])
         + if Text.Trim(pieces[|pieces| - 1]) == "" then [] else [Text.Trim(pieces[|pieces| - 1])]
  }

  function KvLines(key: string, values: seq<string>): seq<string>
  {
    seq(|values|, i requires 0 <= i < |values| => KvLine(key, values[i]))
  }

  /** The trimmed non-empty lines of a hook. */
  function HookLinesOf(value: string): seq<string>
  {
    HookValues(Text.Split(Text.Trim(value), '\n'))
  }

  function ServerAddr(addr: string): string
  {
    if '/' !in addr && Ipv4.ParseIP(addr).Some? then addr + "/24" else addr
  }

  function ListenPort(server: Server, cfg: Settings): int
  {
    if server.port == 0 then cfg.serverPort else server.port
  }

  const DO_NOT_EDIT := "# DO NOT EDIT MANUALLY" + " - This file is auto-generated"

  function HeaderLines(generatedAt: string): seq<string>
  {
    ["# WireGuard Server Configuration", "# Generated at: " + generatedAt,
     DO_NOT_EDIT, ""]
  }

  function BasicLines(server: Server, cfg: Settings): seq<string>
  {
    [KvLine("PrivateKey", server.privateKey), KvLine("ListenPort", Numbers.PrintInt(ListenPort(server, cfg))),
     KvLine("Address", ServerAddr(cfg.serverAddress))]
  }

  function DnsLines(cfg: Settings): seq<string>
  {
    if Text.Trim(cfg.dns) != "" then [KvLine("DNS", cfg.dns)] else []
  }

  function MtuLines(cfg: Settings): seq<string>
  {
    if cfg.mtu > 0 then ["", "# MTU Configuration", KvLine("MTU", Numbers.PrintInt(cfg.mtu))] else []
  }

  function InterfaceLines(server: Server, cfg: Settings): seq<string>
  {
    ["[Interface]"] + BasicLines(server, cfg) + DnsLines(cfg) + MtuLines(cfg)
  }

  function HookLines(cfg: Settings): seq<string>
  {
    KvLines("PreUp", HookLinesOf(cfg.preUp)) + KvLines("PostUp", HookLinesOf(cfg.postUp))
    + KvLines("PreDown", HookLinesOf(cfg.preDown)) + KvLines("PostDown", HookLinesOf(cfg.postDown)) + [""]
  }

  function PeerStartLines(name: string, publicKey: string): seq<string>
  {
    ["# User: " + name, "[Peer]", KvLine("PublicKey", publicKey)]
  }

  function PskLines(u: User): seq<string>
  {
    if NotBlank(u.presharedKey) then [KvLine("PresharedKey", u.presharedKey.value)] else []
  }

  function KeepaliveLines(keepalive: int): seq<string>
  {
    if keepalive > 0 then [KvLine("PersistentKeepalive", Numbers.PrintInt(keepalive))] else []
  }

  function PeerLines(name: string, u: User, keepalive: int): seq<string>
    requires Written(u)
  {
    PeerStartLines(name, u.publicKey.value) + PskLines(u) + [KvLine("AllowedIPs", u.allowedIPs.value)]
    + KeepaliveLines(keepalive) + [""]
  }

  /** The section of one user; nothing for a row that is filtered out. */
  function SectionOf(users: Users, name: string, keepalive: int): seq<string>
  {
    if name in users && Written(users[name]) then PeerLines(name, users[name], keepalive) else []
  }

  function AllPeerLines(users: Users, names: seq<string>, keepalive: int): seq<string>
  {
    if names == [] then []
    else AllPeerLines(users, names[..|names| - 1], keepalive) + SectionOf(users, names[|names| - 1], keepalive)
  }

  const PEERS_TITLE: seq<string> := ["# ========== Client Peers ==========", ""]

  function ConfigLines(server: Server, cfg: Settings, users: Users, generatedAt: string): seq<string>
  {
    HeaderLines(generatedAt) + InterfaceLines(server, cfg) + HookLines(cfg) + PEERS_TITLE
    + AllPeerLines(users, Sorting.SortedKeys(users.Keys), cfg.persistentKeepalive)
  }

  // ---------- Writing ----------

  /** The output buffer, as the newline-terminated lines written to it so far. */
  class Buffer {
    var lines: seq<string>

    constructor ()
      ensures lines == []
    {
      lines := [];
    }

    function Bytes(): string
      reads this
    {
      Text.Unlines(lines)
    }

    method WriteLine(line: string)
      modifies this
      ensures lines == old(lines) + [line]
    {
      lines := lines + [line];
    }

    method WriteLines(more: seq<string>)
      modifies this
      ensures lines == old(lines) + more
    {
      for i := 0 to |more|
        invariant lines == old(lines) + more[..i]
      {
        WriteLine(more[i]);
      }
    }

    /** `writeHook`: one line for every non-empty line of the value. */
    method WriteHook(key: string, value: string)
      modifies this
      ensures lines == old(lines) + KvLines(key, HookLinesOf(value))
    {
      var v := Text.Trim(value);
      if v == "" {
        BlankHook();
        return;
      }
      var pieces := Text.Split(v, '\n');
      for i := 0 to |pieces|
        invariant lines == old(lines) + KvLines(key, HookValues(pieces[..i]))
      {
        HookValuesNext(pieces, i);
        var ln := Text.Trim(pieces[i]);
        if ln == "" {
          continue;
        }
        KvLinesNext(key, HookValues(pieces[..i]), ln);
        Text.ConcatAssociative(old(lines), KvLines(key, HookValues(pieces[..i])), [KvLine(key, ln)]);
        WriteLine(KvLine(key, ln));
      }
      assert pieces[..|pieces|] == pieces;
    }

    method WriteHooks(cfg: Settings)
      modifies this
      ensures lines == old(lines) + HookLines(cfg)
    {
      ghost var a := KvLines("PreUp", HookLinesOf(cfg.preUp));
      ghost var b := KvLines("PostUp", HookLinesOf(cfg.postUp));
      ghost var c := KvLines("PreDown", HookLinesOf(cfg.preDown));
      ghost var d := KvLines("PostDown", HookLinesOf(cfg.postDown));
      WriteHook("PreUp", cfg.preUp);
      WriteHook("PostUp", cfg.postUp);
      Text.ConcatAssociative(old(lines), a, b);
      WriteHook("PreDown", cfg.preDown);
      Text.ConcatAssociative(old(lines), a + b, c);
      WriteHook("PostDown", cfg.postDown);
      Text.ConcatAssociative(old(lines), a + b + c, d);
      WriteLine("");
      Text.ConcatAssociative(old(lines), a + b + c + d, [""]);
    }

    method WritePeer(users: Users, name: string, keepalive: int)
      modifies this
      ensures lines == old(lines) + SectionOf(users, name, keepalive)
    {
      if name !in users || !Selected(users[name]) || !NotBlank(users[name].allowedIPs) {
        return;
      }
      WriteLines(PeerLines(name, users[name], keepalive));
    }

    method WritePeers(users: Users, names: seq<string>, keepalive: int)
      modifies this
      ensures lines == old(lines) + AllPeerLines(users, names, keepalive)
    {
      for i := 0 to |names|
        invariant lines == old(lines) + AllPeerLines(users, names[..i], keepalive)
      {
        WritePeer(users, names[i], keepalive);
        AllPeerLinesNext(users, names, i, keepalive);
        Text.ConcatAssociative(old(lines), AllPeerLines(users, names[..i], keepalive),
                               SectionOf(users, names[i], keepalive));
      }
      assert names[..|names|] == names;
    }
  }

  lemma AllPeerLinesNext(users: Users, names: seq<string>, i: nat, keepalive: int)
    requires i < |names|
    ensures AllPeerLines(users, names[..i + 1], keepalive)
         == AllPeerLines(users, names[..i], keepalive) + SectionOf(users, names[i], keepalive)
  {
    assert names[..i + 1][..i] == names[..i];
  }

  lemma KvLinesNext(key: string, values: seq<string>, v: string)
    ensures KvLines(key, values + [v]) == KvLines(key, values) + [KvLine(key, v)]
  {
  }

  lemma HookValuesNext(lines: seq<string>, i: nat)
    requires i < |lines|
    ensures HookValues(lines[..i + 1])
         == if Text.Trim(lines[i]) == "" then HookValues(lines[..i])
            else HookValues(lines[..i]) + [Text.Trim(lines[i])]
  {
    assert lines[..i + 1][..i] == lines[..i];
  }

  lemma BlankHook()
    ensures HookValues(Text.Split("", '\n')) == []
  {
    assert HookValues([""][..0]) == [];
  }

  // ---------- The lines of a hook ----------

  lemma HookValuesLast(a: seq<string>, piece: string)
    ensures HookValues(a + [piece])
         == HookValues(a) + if Text.Trim(piece) == "" then [] else [Text.Trim(piece)]
  {
    assert (a + [piece])[..|a|] == a;
  }

  lemma {:induction false} HookValuesConcat(a: seq<string>, b: seq<string>)
    ensures HookValues(a + b) == HookValues(a) + HookValues(b)
    decreases |b|
  {
    if b == [] {
      assert a + b == a;
    } else {
      var n := |b| - 1;
      var last := if Text.Trim(b[n]) == "" then [] else [Text.Trim(b[n])];
      HookValuesConcat(a, b[..n]);
      HookValuesLast(a + b[..n], b[n]);
      HookValuesLast(b[..n], b[n]);
      Text.ConcatAssociative(HookValues(a), HookValues(b[..n]), last);
      assert b[..n] + [b[n]] == b;
      Text.ConcatAssociative(a, b[..n], [b[n]]);
    }
  }

  /** The values of a text's lines, before the text as a whole is trimmed. */
  function Values(s: string): seq<string>
  {
    HookValues(Text.Split(s, '\n'))
  }

  lemma ValuesOfOne(s: string)
    requires '\n' !in s
    ensures Values(s) == if Text.Trim(s) == "" then [] else [Text.Trim(s)]
  {
    Text.SplitFirst(s, '\n', "");
    assert [s][..0] == [] && HookValues([]) == [];
  }

  lemma ValuesOfLines(a: string, b: string)
    ensures Values(a + ['\n'] + b) == Values(a) + Values(b)
  {
    Text.SplitConcat(a, '\n', b);
    HookValuesConcat(Text.Split(a, '\n'), Text.Split(b, '\n'));
  }

  /** A text is one line, or a line and the rest. */
  lemma CutLine(s: string) returns (line: string, rest: Option<string>)
    ensures '\n' !in line && s == match rest case None => line case Some(r) => line + ['\n'] + r
    ensures rest.Some? ==> |rest.value| < |s|
  {
    Text.IndexOfFinds(s, '\n');
    match Text.IndexOf(s, '\n') {
      case None => line, rest := s, None;
      case Some(i) => line, rest := s[..i], Some(s[i + 1..]);
    }
  }

  lemma SpaceInFront(c: char, s: string)
    requires Text.Space([c])
    ensures Values([c] + s) == Values(s)
  {
    if c == '\n' {
      Text.ConcatAssociative("", ['\n'], s);
      ValuesOfLines("", s);
      ValuesOfOne("");
    } else {
      var line, rest := CutLine(s);
      Text.TrimMore(c, line);
      ValuesOfOne(line);
      ValuesOfOne([c] + line);
      if rest.Some? {
        ValuesOfLines(line, rest.value);
        ValuesOfLines([c] + line, rest.value);
        FourTexts([c], line, ['\n'], rest.value);
      }
    }
  }

  lemma FourTexts(a: string, b: string, c: string, d: string)
    ensures a + (b + c + d) == a + b + c + d
    ensures a + b + c + d == a + b + (c + d)
    ensures a + b + c + d == a + (b + c) + d
  {
  }

  lemma {:induction false} SpaceBehind(s: string, c: char)
    requires Text.Space([c])
    ensures Values(s + [c]) == Values(s)
    decreases |s|
  {
    if c == '\n' {
      ValuesOfLines(s, "");
      ValuesOfOne("");
      assert s + [c] + "" == s + [c];
    } else {
      var line, rest := CutLine(s);
      if rest.None? {
        Text.TrimMore(c, s);
        ValuesOfOne(s);
        ValuesOfOne(s + [c]);
      } else {
        SpaceBehind(rest.value, c);
        ValuesOfLines(line, rest.value);
        ValuesOfLines(line, rest.value + [c]);
        FourTexts(line, ['\n'], rest.value, [c]);
      }
    }
  }

  lemma {:induction false} AllSpaceInFront(left: string, s: string)
    requires Text.Space(left)
    ensures Values(left + s) == Values(s)
  {
    if left == "" {
      assert left + s == s;
    } else {
      assert left[0] in left && left + s == [left[0]] + (left[1..] + s);
      AllSpaceInFront(left[1..], s);
      SpaceInFront(left[0], left[1..] + s);
    }
  }

  lemma {:induction false} AllSpaceBehind(s: string, right: string)
    requires Text.Space(right)
    ensures Values(s + right) == Values(s)
    decreases |right|
  {
    if right == "" {
      assert s + right == s;
    } else {
      var n := |right| - 1;
      assert right[n] in right && s + right == s + right[..n] + [right[n]];
      AllSpaceBehind(s, right[..n]);
      SpaceBehind(s + right[..n], right[n]);
    }
  }

  lemma HookLinesUntrimmed(v: string)
    ensures HookLinesOf(v) == Values(v)
  {
    var left, right := Text.TrimSplits(v);
    AllSpaceInFront(left, Text.Trim(v));
    AllSpaceBehind(left + Text.Trim(v), right);
  }

  /** A hook of one line is that line trimmed, or nothing when it is blank. */
  lemma HookOfOneLine(s: string)
    requires '\n' !in s
    ensures HookLinesOf(s) == if Text.Trim(s) == "" then [] else [Text.Trim(s)]
  {
    HookLinesUntrimmed(s);
    ValuesOfOne(s);
  }

  /** A hook may be cut at any line break; with the one-line case this leaves one meaning of a hook. */
  lemma HookOfLines(a: string, b: string)
    ensures HookLinesOf(a + ['\n'] + b) == HookLinesOf(a) + HookLinesOf(b)
  {
    HookLinesUntrimmed(a);
    HookLinesUntrimmed(b);
    HookLinesUntrimmed(a + ['\n'] + b);
    ValuesOfLines(a, b);
  }

  // ---------- The file ----------

  /** The written file, or None for the source's error returns. */
  function WrittenFile(sys: Option<Settings>, server: Option<Server>, users: Users, generatedAt: string): Option<string>
  {
    if sys.None? || !sys.value.enabled || server.None? then None
    else Some(Text.Unlines(ConfigLines(server.value, sys.value, users, generatedAt)))
  }

  /** A file is written if and only if WireGuard is configured and enabled and there is a server row. */
  lemma WrittenExactly(sys: Option<Settings>, server: Option<Server>, users: Users, generatedAt: string)
    ensures WrittenFile(sys, server, users, generatedAt).Some? <==> sys.Some? && sys.value.enabled && server.Some?
  {
  }

  method WriteWireGuardConfig(sys: Option<Settings>, server: Option<Server>, users: Users, generatedAt: string)
    returns (file: Option<string>)
    ensures file == WrittenFile(sys, server, users, generatedAt)
  {
    if sys.None? || !sys.value.enabled || server.None? {
      return None;
    }
    var cfg := sys.value;
    var buf := new Buffer();
    buf.WriteLines(HeaderLines(generatedAt));
    ghost var a := HeaderLines(generatedAt);
    assert buf.lines == a;
    buf.WriteLines(InterfaceLines(server.value, cfg));
    ghost var b := a + InterfaceLines(server.value, cfg);
    buf.WriteHooks(cfg);
    ghost var c := b + HookLines(cfg);
    assert buf.lines == c;
    buf.WriteLines(PEERS_TITLE);
    buf.WritePeers(users, Sorting.SortedKeys(users.Keys), cfg.persistentKeepalive);
    file := Some(buf.Bytes());
  }
}
