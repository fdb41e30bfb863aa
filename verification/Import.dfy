/**
 * `importPeersAsUsers` of `internal/app/handlers.go`, and the full circle: importing a file that the
 * server wrote restores the users it was written from, and writing them again gives the same file.
 */
module Import {
  import opened Wrappers
  import Ipv4
  import RoundTrip
  import Sorting
  import Text
  import WgConfig
  import WgQuick

  type Users = WgConfig.Users

  function NullIfEmpty(s: string): Option<string>
  {
    if Text.Trim(s) == "" then None else Some(s)
  }

  /** `FirstPeerVPNIP`: the bare address of the first segment, or the empty string. */
  function FirstPeerVPNIP(allowedIPs: string): string
  {
    var raw := Ipv4.FirstTunnelIPCIDR(allowedIPs);
    var ip := match Text.IndexOf(raw, '/') case Some(i) => Text.Trim(raw[..i]) case None => raw;
    if Ipv4.ParseIP(ip).Some? then ip else ""
  }

  /** The username a peer is stored under. */
  function NameFor(p: WgQuick.Peer): string
  {
    var pub, allowed := Text.Trim(p.publicKey), Text.Trim(p.allowedIPs);
    if Text.Trim(p.username) != "" then Text.Trim(p.username)
    else if FirstPeerVPNIP(allowed) != "" then FirstPeerVPNIP(allowed)
    else pub
  }

  /** The columns an imported peer sets, on a new row or on the row of that name. */
  function RowFor(p: WgQuick.Peer): WgConfig.User
  {
    WgConfig.User(true, true, Some(Text.Trim(p.publicKey)), NullIfEmpty(p.presharedKey), Some(Text.Trim(p.allowedIPs)),
                  NullIfEmpty(p.endpoint))
  }

  function ImportOne(users: Users, p: WgQuick.Peer): Users
  {
    if Text.Trim(p.publicKey) == "" || Text.Trim(p.allowedIPs) == "" then users
    else users[NameFor(p) := RowFor(p)]
  }

  function Imported(users: Users, peers: seq<WgQuick.Peer>): Users
  {
    if peers == [] then users
    else ImportOne(Imported(users, peers[..|peers| - 1]), peers[|peers| - 1])
  }

  method ImportPeersAsUsers(users: Users, peers: seq<WgQuick.Peer>) returns (out: Users)
    ensures out == Imported(users, peers)
  {
    out := users;
    for i := 0 to |peers|
      invariant out == Imported(users, peers[..i])
    {
      assert peers[..i + 1][..i] == peers[..i];
      var p := peers[i];
      var pub, allowed := Text.Trim(p.publicKey), Text.Trim(p.allowedIPs);
      if pub == "" || allowed == "" {
        continue;
      }
      out := out[NameFor(p) := RowFor(p)];
    }
    assert peers[..|peers|] == peers;
  }

  /** A peer without a user comment is stored under its tunnel address. */
  lemma UnnamedPeerIsStoredByAddress(p: WgQuick.Peer, ip: Ipv4.Ip, extra: string)
    requires Text.Trim(p.username) == "" && Text.Trimmed(extra)
    requires Text.Trim(p.allowedIPs) == Ipv4.Column(ip, extra)
    ensures NameFor(p) == Ipv4.String(ip)
  {
    var host := Ipv4.String(ip);
    Ipv4.ColumnReadsBack(ip, extra);
    Ipv4.ParseHost(ip);
    Ipv4.ParseIPOfString(ip);
    assert (host + "/32")[..|host|] == host;
    Ipv4.StringIsTrimmed(ip);
    Text.TrimOfTrimmed(host);
  }

  /** Without an IPv4 address in its first segment, an unnamed peer is stored under its key. */
  lemma UnnamedPeerWithoutAddress(p: WgQuick.Peer)
    requires Text.Trim(p.username) == ""
    requires var first := Ipv4.FirstTunnelIPCIDR(Text.Trim(p.allowedIPs));
             forall ip :: !(Ipv4.String(ip) <= first)
    ensures NameFor(p) == Text.Trim(p.publicKey)
  {
    var first := Ipv4.FirstTunnelIPCIDR(Text.Trim(p.allowedIPs));
    var cut := match Text.IndexOf(first, '/') case Some(i) => Text.Trim(first[..i]) case None => first;
    if Ipv4.ParseIP(cut).Some? {
      var ip := Ipv4.ParseIP(cut).value;
      Ipv4.ParseIPExact(cut, ip);
      Ipv4.FirstIsTrimmed(Text.Trim(p.allowedIPs));
      StartsWithCut(first, cut);
    }
  }

  lemma StartsWithCut(first: string, cut: string)
    requires Text.Trimmed(first)
    requires cut == match Text.IndexOf(first, '/') case Some(i) => Text.Trim(first[..i]) case None => first
    ensures cut <= first
  {
    match Text.IndexOf(first, '/') {
      case None =>
      case Some(i) =>
        Text.TrimRightDrops(first[..i]);
        if i > 0 {
          assert first[..i][0] == first[0];
          assert Text.TrimLeft(first[..i]) == first[..i];
        }
    }
  }

  /** A peer with key and addresses. */
  predicate Usable(p: WgQuick.Peer)
  {
    Text.Trim(p.publicKey) != "" && Text.Trim(p.allowedIPs) != ""
  }

  /** The peer at `i` is the last usable one that goes by the name. */
  predicate Decides(peers: seq<WgQuick.Peer>, i: nat, name: string)
  {
    i < |peers| && Usable(peers[i]) && NameFor(peers[i]) == name
    && forall j :: i < j < |peers| ==> !(Usable(peers[j]) && NameFor(peers[j]) == name)
  }

  /** An enabled WireGuard user with the peer's columns; blank ones become NULL. */
  predicate Stands(u: WgConfig.User, p: WgQuick.Peer)
  {
    u.wireguard && u.enabled
    && u.publicKey == Some(Text.Trim(p.publicKey)) && u.allowedIPs == Some(Text.Trim(p.allowedIPs))
    && u.presharedKey == (if Text.Trim(p.presharedKey) == "" then None else Some(p.presharedKey))
    && u.endpoint == if Text.Trim(p.endpoint) == "" then None else Some(p.endpoint)
  }

  /** Each name gets the row of its last usable peer, and a name that no usable peer goes by keeps its row. */
  lemma {:induction false} LastUsableWins(users: Users, peers: seq<WgQuick.Peer>, name: string)
    ensures var out := Imported(users, peers);
            && (forall i: nat :: Decides(peers, i, name) ==> name in out && Stands(out[name], peers[i]))
            && ((forall i: nat :: !Decides(peers, i, name)) ==>
                  (name in out <==> name in users) && (name in users ==> out[name] == users[name]))
  {
    if peers != [] {
      var n := |peers| - 1;
      LastUsableWins(users, peers[..n], name);
      if Usable(peers[n]) && NameFor(peers[n]) == name {
        assert Decides(peers, n, name);
      } else {
        forall i: nat ensures Decides(peers, i, name) <==> Decides(peers[..n], i, name) {
          SameDecision(peers, i, name);
        }
      }
    }
  }

  lemma SameDecision(peers: seq<WgQuick.Peer>, i: nat, name: string)
    requires peers != [] && !(Usable(peers[|peers| - 1]) && NameFor(peers[|peers| - 1]) == name)
    ensures Decides(peers, i, name) <==> Decides(peers[..|peers| - 1], i, name)
  {
    var n := |peers| - 1;
    assert forall j :: 0 <= j < n ==> peers[..n][j] == peers[j];
  }

  // ---------- Restoring the written users ----------

  /** A written row with the columns that the file does not carry left out. */
  function Carried(u: WgConfig.User): WgConfig.User
    requires WgConfig.Written(u)
  {
    WgConfig.User(true, true, u.publicKey, if WgConfig.NotBlank(u.presharedKey) then u.presharedKey else None,
                  u.allowedIPs, None)
  }

  function Restored(users: Users): Users
  {
    map name | name in users && WgConfig.Written(users[name]) :: Carried(users[name])
  }

  /** Written users have names and keys that are not blank, as the handlers see to. */
  predicate Named(users: Users)
  {
    RoundTrip.WellFormedUsers(users) && forall name :: name in users && WgConfig.Written(users[name]) ==> name != ""
  }

  lemma ImportWrittenPeer(users: Users, name: string, keepalive: int, out: Users)
    requires Named(users) && name in users && WgConfig.Written(users[name])
    ensures ImportOne(out, RoundTrip.PeerOf(name, users[name], keepalive)) == out[name := Carried(users[name])]
  {
    var u := users[name];
    assert RoundTrip.WellFormedUser(name, u);
    Text.TrimOfTrimmed(name);
    Text.TrimOfTrimmed(u.publicKey.value);
    Text.TrimOfTrimmed(u.allowedIPs.value);
    Text.TrimOfTrimmed("");
  }

  /** `out` is the restored users among `names`. */
  ghost predicate RestoresAmong(out: Users, users: Users, names: seq<string>)
  {
    (forall name :: name in out <==> name in names && name in Restored(users))
    && forall name :: name in out ==> out[name] == Restored(users)[name]
  }

  lemma ImportedNext(peers: seq<WgQuick.Peer>, p: WgQuick.Peer)
    ensures Imported(map[], peers + [p]) == ImportOne(Imported(map[], peers), p)
  {
    assert (peers + [p])[..|peers|] == peers;
  }

  lemma RestoreNext(out: Users, users: Users, names: seq<string>, name: string)
    requires RestoresAmong(out, users, names)
    ensures if name in Restored(users) then RestoresAmong(out[name := Restored(users)[name]], users, names + [name])
            else RestoresAmong(out, users, names + [name])
  {
    assert forall x :: x in names + [name] <==> x in names || x == name;
  }

  lemma {:induction false} ImportRestores(users: Users, names: seq<string>, keepalive: int)
    requires Named(users)
    ensures RestoresAmong(Imported(map[], RoundTrip.PeersOf(users, names, keepalive)), users, names)
  {
    if names != [] {
      var n := |names| - 1;
      var name := names[n];
      var front := RoundTrip.PeersOf(users, names[..n], keepalive);
      ImportRestores(users, names[..n], keepalive);
      RestoreNext(Imported(map[], front), users, names[..n], name);
      assert names == names[..n] + [name];
      if name in users && WgConfig.Written(users[name]) {
        var p := RoundTrip.PeerOf(name, users[name], keepalive);
        ImportedNext(front, p);
        ImportWrittenPeer(users, name, keepalive, Imported(map[], front));
      } else {
        assert front + [] == front;
      }
    }
  }

  /** Importing a written file into an empty table restores every written user, and nobody else. */
  lemma ImportOfWrittenFile(server: WgConfig.Server, cfg: WgConfig.Settings, users: Users, generatedAt: string,
                            file: string)
    returns (parsed: WgQuick.Config)
    requires RoundTrip.WellFormedServer(server, cfg) && Named(users) && RoundTrip.Field(generatedAt)
    requires WgConfig.WrittenFile(Some(cfg), Some(server), users, generatedAt) == Some(file)
    ensures WgQuick.Parse(file) == Some(parsed)
    ensures Imported(map[], parsed.peers) == Restored(users)
  {
    var names := Sorting.SortedKeys(users.Keys);
    RoundTrip.ParseUndoesWrite(server, cfg, users, generatedAt, file);
    parsed := WgQuick.Config(RoundTrip.InterfaceOf(server, cfg),
                             RoundTrip.PeersOf(users, names, cfg.persistentKeepalive));
    RestoreAll(users, cfg.persistentKeepalive);
  }

  lemma RestoreAll(users: Users, keepalive: int)
    requires Named(users)
    ensures Imported(map[], RoundTrip.PeersOf(users, Sorting.SortedKeys(users.Keys), keepalive)) == Restored(users)
  {
    ImportRestores(users, Sorting.SortedKeys(users.Keys), keepalive);
  }

  // ---------- Writing the restored users ----------

  function WrittenNames(users: Users, names: seq<string>): seq<string>
  {
    if names == [] then []
    else
      var last := names[|names| - 1];
      WrittenNames(users, names[..|names| - 1]) + if last in users && WgConfig.Written(users[last]) then [last] else []
  }

  lemma {:induction false} WrittenNamesAre(users: Users, names: seq<string>)
    requires Sorting.Sorted(names)
    ensures Sorting.Sorted(WrittenNames(users, names))
    ensures forall x :: x in WrittenNames(users, names) <==> x in names && x in Restored(users)
  {
    if names != [] {
      var n := |names| - 1;
      var front := WrittenNames(users, names[..n]);
      WrittenNamesAre(users, names[..n]);
      assert forall i :: 0 <= i < |front| ==> front[i] in front;
      assert forall x :: x in names <==> x in names[..n] || x == names[n];
    }
  }

  /** A restored row is written with the same lines. */
  lemma SameSection(users: Users, name: string, keepalive: int)
    ensures WgConfig.SectionOf(Restored(users), name, keepalive) == WgConfig.SectionOf(users, name, keepalive)
  {
  }

  lemma {:induction false} SameLines(users: Users, names: seq<string>, keepalive: int)
    ensures WgConfig.AllPeerLines(Restored(users), WrittenNames(users, names), keepalive)
         == WgConfig.AllPeerLines(users, names, keepalive)
  {
    if names != [] {
      var n := |names| - 1;
      var front := WrittenNames(users, names[..n]);
      SameLines(users, names[..n], keepalive);
      SameSection(users, names[n], keepalive);
      if names[n] in users && WgConfig.Written(users[names[n]]) {
        assert (front + [names[n]])[..|front|] == front;
      } else {
        assert front + [] == front;
        assert WgConfig.AllPeerLines(users, names[..n], keepalive) + []
            == WgConfig.AllPeerLines(users, names[..n], keepalive);
      }
    }
  }

  lemma SameFile(server: WgConfig.Server, cfg: WgConfig.Settings, users: Users, generatedAt: string)
    ensures WgConfig.WrittenFile(Some(cfg), Some(server), Restored(users), generatedAt)
         == WgConfig.WrittenFile(Some(cfg), Some(server), users, generatedAt)
  {
    var names := Sorting.SortedKeys(users.Keys);
    WrittenNamesAre(users, names);
    Sorting.SortedIsUnique(WrittenNames(users, names), Sorting.SortedKeys(Restored(users).Keys));
    SameLines(users, names, cfg.persistentKeepalive);
  }

  /** The written file is a fixed point: import it, write the imported users, and the same file appears. */
  lemma WriteAfterImport(server: WgConfig.Server, cfg: WgConfig.Settings, users: Users, generatedAt: string,
                         file: string)
    returns (parsed: WgQuick.Config)
    requires RoundTrip.WellFormedServer(server, cfg) && Named(users) && RoundTrip.Field(generatedAt)
    requires WgConfig.WrittenFile(Some(cfg), Some(server), users, generatedAt) == Some(file)
    ensures WgQuick.Parse(file) == Some(parsed)
    ensures WgConfig.WrittenFile(Some(cfg), Some(server), Imported(map[], parsed.peers), generatedAt) == Some(file)
  {
    parsed := ImportOfWrittenFile(server, cfg, users, generatedAt, file);
    SameFile(server, cfg, users, generatedAt);
  }
}
