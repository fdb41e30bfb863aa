/**
 * The printed plan: `FormatPlan` of `internal/pcq/plan.go` over the commands of `Plan`, as shown in
 * previews and returned by `Apply`.
 */
module Preview {
  import opened Wrappers
  import opened ShellQuote
  import Ipv4
  import Limits
  import Numbers
  import Plan
  import Rates
  import Script
  import Tc
  import Text

  function Lines(cmds: seq<Tc.Argv>): (lines: seq<string>)
    ensures |lines| == |cmds|
  {
    seq(|cmds|, i requires 0 <= i < |cmds| => Line(cmds[i]))
  }

  method FormatPlan(cmds: seq<Tc.Argv>) returns (lines: seq<string>)
    ensures lines == Lines(cmds)
  {
    lines := [];
    for i := 0 to |cmds|
      invariant lines == Lines(cmds)[..i]
    {
      var line := QuotedJoin(cmds[i]);
      lines := lines + [line];
    }
  }

  // ---------- Words that need no quotes ----------

  predicate PlainChar(c: char)
  {
    'a' <= c <= 'z' || '0' <= c <= '9' || c == ':' || c == '.' || c == '/' || c == '-'
  }

  predicate PlainWord(s: string)
  {
    s != "" && forall i :: 0 <= i < |s| ==> PlainChar(s[i])
  }

  lemma PlainFaithful(s: string)
    requires PlainWord(s)
    ensures Faithful(s)
  {
    forall i | 0 <= i < |s| ensures !Trigger(s[i]) && !Unlisted(s[i]) {
      assert PlainChar(s[i]);
    }
  }

  /** All words of a command but those equal to `iface` are plain. */
  predicate PlainBut(iface: string, a: Tc.Argv)
  {
    forall i :: 0 <= i < |a| ==> a[i] == iface || PlainWord(a[i])
  }

  lemma PlainButFaithful(iface: string, a: Tc.Argv)
    requires PlainBut(iface, a) && iface in a
    ensures AllFaithful(a) <==> Faithful(iface)
  {
    forall i | 0 <= i < |a| && PlainWord(a[i]) ensures Faithful(a[i]) {
      PlainFaithful(a[i]);
    }
  }

  lemma PlainConcat(s: string, t: string)
    requires PlainWord(s) && PlainWord(t)
    ensures PlainWord(s + t)
  {
  }

  lemma PlainNumber(n: nat, base: nat)
    requires base == 10 || base == 16
    ensures PlainWord(Numbers.Print(n, base))
  {
    Numbers.ParsePrint(n, base);
    var s := Numbers.Print(n, base);
    forall i | 0 <= i < |s| ensures PlainChar(s[i]) {
      assert Numbers.IsDigit(s[i], base);
    }
  }

  lemma CommandWords()
    ensures PlainWord("tc") && PlainWord("qdisc") && PlainWord("class") && PlainWord("filter")
    ensures PlainWord("add") && PlainWord("dev") && PlainWord("root") && PlainWord("handle")
    ensures PlainWord("htb") && PlainWord("default") && PlainWord("parent") && PlainWord("classid")
  {
  }

  lemma RateWords()
    ensures PlainWord("rate") && PlainWord("ceil") && PlainWord("prio") && PlainWord("police")
    ensures PlainWord("burst") && PlainWord("cburst") && PlainWord("mtu") && PlainWord("conform-exceed")
    ensures PlainWord("drop") && PlainWord("bit") && PlainWord(Plan.ROOT_CEIL) && PlainWord("ingress")
  {
  }

  lemma MatchWords()
    ensures PlainWord("protocol") && PlainWord("ip") && PlainWord("match") && PlainWord("dst")
    ensures PlainWord("src") && PlainWord("flowid") && PlainWord("u32") && PlainWord("/32")
    ensures PlainWord("1:") && PlainWord("1:1") && PlainWord("1:30") && PlainWord("ffff:")
    ensures PlainWord("30") && PlainWord("7") && PlainWord("5") && PlainWord("1500")
  {
  }

  lemma PlainRate(kbps: int)
    requires kbps > 0
    ensures PlainWord(Rates.KbpsToRateSpec(kbps))
  {
    RateWords();
    PlainNumber(Rates.BitsPerSecond(kbps), 10);
    PlainConcat(Numbers.Print(Rates.BitsPerSecond(kbps), 10), "bit");
  }

  lemma PlainClassId(minor: nat)
    ensures PlainWord(Plan.ClassId(minor))
  {
    MatchWords();
    PlainNumber(minor, 16);
    PlainConcat("1:", Numbers.Print(minor, 16));
  }

  /** Keys of the limit map are printed addresses. */
  ghost predicate IsAddress(ip: string)
  {
    exists a :: ip == Ipv4.String(a)
  }

  ghost predicate AllAddresses(ks: seq<string>)
  {
    forall i :: 0 <= i < |ks| ==> IsAddress(ks[i])
  }

  lemma PlainCidr(ip: string)
    requires IsAddress(ip)
    ensures PlainWord(ip + "/32")
  {
    var a :| ip == Ipv4.String(a);
    forall i | 0 <= i < |ip| ensures PlainChar(ip[i]) {
      Ipv4.StringCharacters(a, ip[i]);
    }
    MatchWords();
    PlainConcat(ip, "/32");
  }

  // ---------- The commands of a plan ----------

  /** The command names the interface and is otherwise plain. */
  predicate Named(iface: string, a: Tc.Argv)
  {
    iface in a && PlainBut(iface, a)
  }

  predicate OnInterface(iface: string, cmds: seq<Tc.Argv>)
  {
    forall i :: 0 <= i < |cmds| ==> Named(iface, cmds[i])
  }

  lemma AllNamed(iface: string, a: seq<Tc.Argv>, b: seq<Tc.Argv>)
    requires OnInterface(iface, a) && OnInterface(iface, b)
    ensures OnInterface(iface, a + b)
  {
  }

  lemma NamedAt4(iface: string, a: Tc.Argv)
    requires |a| > 4 && a[4] == iface && PlainBut(iface, a)
    ensures Named(iface, a)
  {
  }

  lemma HeaderPlain(iface: string)
    ensures OnInterface(iface, Plan.DownloadHeader(iface)) && OnInterface(iface, Plan.UploadHeader(iface))
  {
    CommandWords();
    RateWords();
    MatchWords();
    NamedAt4(iface, Plan.RootArgv(iface));
    NamedAt4(iface, Plan.TopClassArgv(iface));
    NamedAt4(iface, Plan.DefaultClassArgv(iface));
    NamedAt4(iface, Plan.IngressArgv(iface));
  }

  lemma ClassTextsPlain(iface: string, id: string, rate: string, bytes: string)
    requires PlainWord(id) && PlainWord(rate) && PlainWord(bytes)
    ensures var a := ["tc", "class", "add", "dev", iface, "parent", "1:1", "classid", id, "htb",
                      "rate", rate, "ceil", rate, "prio", "5"];
            PlainBut(iface, a) && PlainBut(iface, a + ["burst", bytes, "cburst", bytes])
  {
    CommandWords();
    RateWords();
    MatchWords();
  }

  lemma ClassPlain(iface: string, minor: nat, pl: Limits.PeerLimit)
    requires pl.download > 0
    ensures PlainBut(iface, Plan.PeerClassArgv(iface, minor, pl))
  {
    var b := Rates.BurstBytesPreferringConfig(pl.burstDownload, pl.download);
    PlainClassId(minor);
    PlainRate(pl.download);
    PlainNumber(b, 10);
    ClassTextsPlain(iface, Plan.ClassId(minor), Rates.KbpsToRateSpec(pl.download), Plan.Decimal(b));
  }

  lemma FilterTextsPlain(iface: string, prio: string, cidr: string, id: string)
    requires PlainWord(prio) && PlainWord(cidr) && PlainWord(id)
    ensures PlainBut(iface, ["tc", "filter", "add", "dev", iface, "protocol", "ip", "parent", "1:", "prio", prio,
                             "u32", "match", "ip", "dst", cidr, "flowid", id])
  {
    CommandWords();
    RateWords();
    MatchWords();
  }

  lemma FilterPlain(iface: string, prio: nat, ip: string, minor: nat)
    requires IsAddress(ip)
    ensures PlainBut(iface, Plan.FilterArgv(iface, prio, ip, minor))
  {
    PlainNumber(prio, 10);
    PlainCidr(ip);
    PlainClassId(minor);
    FilterTextsPlain(iface, Plan.Decimal(prio), ip + "/32", Plan.ClassId(minor));
  }

  lemma PolicerTextsPlain(iface: string, prio: string, cidr: string, rate: string, bytes: string)
    requires PlainWord(prio) && PlainWord(cidr) && PlainWord(rate) && PlainWord(bytes)
    ensures PlainBut(iface, ["tc", "filter", "add", "dev", iface, "parent", "ffff:", "protocol", "ip", "prio", prio,
                             "u32", "match", "ip", "src", cidr, "police", "rate", rate, "burst", bytes,
                             "mtu", "1500", "conform-exceed", "drop"])
  {
    CommandWords();
    RateWords();
    MatchWords();
  }

  lemma PolicerPlain(iface: string, prio: nat, ip: string, pl: Limits.PeerLimit)
    requires IsAddress(ip) && pl.upload > 0
    ensures Named(iface, Plan.PolicerArgv(iface, prio, ip, pl))
  {
    var b := Rates.BurstBytesPreferringConfig(pl.burstUpload, pl.upload);
    PlainNumber(prio, 10);
    PlainCidr(ip);
    PlainRate(pl.upload);
    PlainNumber(b, 10);
    PolicerTextsPlain(iface, Plan.Decimal(prio), ip + "/32", Rates.KbpsToRateSpec(pl.upload), Plan.Decimal(b));
    NamedAt4(iface, Plan.PolicerArgv(iface, prio, ip, pl));
  }

  lemma {:induction false} ClassCommandsPlain(iface: string, peers: Plan.Peers, ks: seq<string>)
    requires AllAddresses(ks) && Plan.Limited(peers, ks)
    ensures OnInterface(iface, Plan.ClassCommands(iface, peers, ks))
  {
    if ks != [] {
      var n := |ks| - 1;
      ClassCommandsPlain(iface, peers, ks[..n]);
      PeerCommandsPlain(iface, Plan.FIRST_DOWNLOAD_PRIO + n, Plan.FIRST_MINOR + n, ks[n], Limits.Lookup(peers, ks[n]));
    }
  }

  lemma PeerCommandsPlain(iface: string, prio: nat, minor: nat, ip: string, pl: Limits.PeerLimit)
    requires IsAddress(ip) && pl.download > 0
    ensures OnInterface(iface, Plan.PeerCommands(iface, prio, minor, ip, pl))
  {
    ClassPlain(iface, minor, pl);
    FilterPlain(iface, prio, ip, minor);
    NamedAt4(iface, Plan.PeerClassArgv(iface, minor, pl));
    NamedAt4(iface, Plan.FilterArgv(iface, prio, ip, minor));
  }

  lemma {:induction false} PolicerCommandsPlain(iface: string, peers: Plan.Peers, ks: seq<string>)
    requires AllAddresses(ks) && Plan.Capped(peers, ks)
    ensures OnInterface(iface, Plan.PolicerCommands(iface, peers, ks))
  {
    if ks != [] {
      var n := |ks| - 1;
      PolicerCommandsPlain(iface, peers, ks[..n]);
      PolicerPlain(iface, Plan.FIRST_UPLOAD_PRIO + n, ks[n], Limits.Lookup(peers, ks[n]));
    }
  }

  lemma ShapePlain(iface: string, peers: Plan.Peers)
    requires forall ip :: ip in peers ==> IsAddress(ip)
    ensures OnInterface(iface, Plan.ShapeFor(iface, peers))
  {
    HeaderPlain(iface);
    ClassCommandsPlain(iface, peers, Plan.Classed(peers));
    PolicerCommandsPlain(iface, peers, Plan.Policed(peers));
    AllNamed(iface, Plan.DownloadHeader(iface), Plan.ClassCommands(iface, peers, Plan.Classed(peers)));
    AllNamed(iface, Plan.UploadHeader(iface), Plan.PolicerCommands(iface, peers, Plan.Policed(peers)));
    AllNamed(iface, Plan.DownloadShape(iface, peers), Plan.UploadShape(iface, peers));
  }

  lemma TeardownFaithful(iface: string, what: string)
    ensures AllFaithful(Plan.DeleteArgv(iface, what))
  {
    assert PlainWord("sh") && PlainWord("-c");
    PlainFaithful("sh");
    PlainFaithful("-c");
    assert Trigger(Script.DeleteScript(iface, what)[2]);
  }

  predicate ReadsBack(cmds: seq<Tc.Argv>)
  {
    forall i :: 0 <= i < |cmds| ==> Words(Lines(cmds)[i]) == Some(cmds[i])
  }

  lemma ReadsBackWhenFaithful(cmds: seq<Tc.Argv>)
    ensures ReadsBack(cmds) <==> forall i :: 0 <= i < |cmds| ==> AllFaithful(cmds[i])
  {
    forall i | 0 <= i < |cmds| ensures Words(Lines(cmds)[i]) == Some(cmds[i]) <==> AllFaithful(cmds[i]) {
      QuotedJoinRoundTrip(cmds[i]);
    }
  }

  lemma ShapeFaithful(iface: string, cmds: seq<Tc.Argv>)
    requires OnInterface(iface, cmds) && cmds != []
    ensures (forall i :: 0 <= i < |cmds| ==> AllFaithful(cmds[i])) <==> Faithful(iface)
  {
    forall i | 0 <= i < |cmds| ensures AllFaithful(cmds[i]) <==> Faithful(iface) {
      assert Named(iface, cmds[i]);
      PlainButFaithful(iface, cmds[i]);
    }
    assert AllFaithful(cmds[0]) <==> Faithful(iface);
  }

  lemma SplitFaithful(a: seq<Tc.Argv>, b: seq<Tc.Argv>)
    requires forall i :: 0 <= i < |a| ==> AllFaithful(a[i])
    ensures (forall i :: 0 <= i < |a + b| ==> AllFaithful((a + b)[i]))
       <==> forall i :: 0 <= i < |b| ==> AllFaithful(b[i])
  {
    forall i | 0 <= i < |b| ensures (a + b)[|a| + i] == b[i] {
    }
  }

  lemma PlanReadsBack(wgIface: string, peers: Plan.Peers)
    requires forall ip :: ip in peers ==> IsAddress(ip)
    ensures var iface := Text.Trim(wgIface);
            ReadsBack(Plan.PlanFor(wgIface, peers)) <==> Plan.ShapeFor(iface, peers) == [] || Faithful(iface)
  {
    var iface := Text.Trim(wgIface);
    var shape, cmds := Plan.ShapeFor(iface, peers), Plan.PlanFor(wgIface, peers);
    ShapePlain(iface, peers);
    TeardownFaithful(iface, "ingress");
    TeardownFaithful(iface, "root");
    ReadsBackWhenFaithful(cmds);
    SplitFaithful(Plan.Teardown(iface), shape);
    if shape != [] {
      ShapeFaithful(iface, shape);
    }
  }

  lemma {:induction false} LoadedKeysAreAddresses(rows: seq<Limits.Row>, ip: string)
    requires ip in Limits.Fold(rows)
    ensures IsAddress(ip)
  {
    if rows != [] {
      var n := |rows| - 1;
      var e := Limits.EntryOf(rows[n]);
      if e.ip != "" && ip == e.ip {
        TunnelIsAddress(rows[n].allowedIPs);
      } else {
        LoadedKeysAreAddresses(rows[..n], ip);
      }
    }
  }

  lemma TunnelIsAddress(allowedIPs: string)
    requires Ipv4.TunnelIPv4(allowedIPs) != ""
    ensures IsAddress(Ipv4.TunnelIPv4(allowedIPs))
  {
    var s := Text.Trim(Ipv4.FirstTunnelIPCIDR(allowedIPs));
    var ip := if '/' in s then Ipv4.ParseCIDR(s).value.0 else Ipv4.ParseIP(s).value;
    assert Ipv4.TunnelIPv4(allowedIPs) == Ipv4.String(ip);
  }

  /**
   * A printed plan is the program that runs: for whatever rows were loaded, a shell splits each line into
   * the arguments of the command executed, exactly when nothing is shaped or the interface name survives
   * printing.
   */
  lemma PreviewIsTheProgram(wgIface: string, rows: seq<Limits.Row>)
    ensures var iface, peers := Text.Trim(wgIface), Limits.Fold(rows);
            ReadsBack(Plan.PlanFor(wgIface, peers)) <==> Plan.ShapeFor(iface, peers) == [] || Faithful(iface)
  {
    var peers := Limits.Fold(rows);
    forall ip | ip in peers ensures IsAddress(ip) {
      LoadedKeysAreAddresses(rows, ip);
    }
    PlanReadsBack(wgIface, peers);
  }
}
