/**
 * The compiler of `internal/pcq/plan.go`: from a map of per-address limits to `tc` argument vectors.
 *
 * `PlanFor` is the compiled program as a value; the methods build it with the source's loops and
 * counters. `PlanMeansTheMap` says what running it does.
 */
module Plan {
  import opened Wrappers
  import opened Limits
  import Numbers
  import Rates
  import Script
  import ShellQuote
  import Sorting
  import Tc
  import Text

  type Argv = Tc.Argv
  type Peers = map<string, PeerLimit>

  const ROOT_CEIL := "100000mbit"
  const LINE_RATE: nat := 100000 * 1000000
  const FIRST_MINOR: nat := 100
  const LAST_MINOR: nat := 0xff00
  const FIRST_DOWNLOAD_PRIO: nat := 50
  const FIRST_UPLOAD_PRIO: nat := 10

  /** As many download peers as there are class numbers. */
  const MAX_CLASSES: nat := LAST_MINOR - FIRST_MINOR + 1

  /** As many upload peers as there are 16-bit priorities from the first one. */
  const MAX_POLICERS: nat := Tc.MAX_PRIO - FIRST_UPLOAD_PRIO + 1

  // ---------- Argument vectors ----------

  function Decimal(n: nat): string
  {
    Numbers.Print(n, 10)
  }

  function ClassId(minor: nat): string
  {
    "1:" + Numbers.Print(minor, 16)
  }

  function RootArgv(iface: string): Argv
  {
    ["tc", "qdisc", "add", "dev", iface, "root", "handle", "1:", "htb", "default", "30"]
  }

  function TopClassArgv(iface: string): Argv
  {
    ["tc", "class", "add", "dev", iface, "parent", "1:", "classid", "1:1", "htb",
     "rate", ROOT_CEIL, "ceil", ROOT_CEIL]
  }

  function DefaultClassArgv(iface: string): Argv
  {
    ["tc", "class", "add", "dev", iface, "parent", "1:1", "classid", "1:30", "htb",
     "rate", ROOT_CEIL, "ceil", ROOT_CEIL, "prio", "7"]
  }

  function PeerClassArgv(iface: string, minor: nat, pl: PeerLimit): Argv
  {
    var rate := Rates.KbpsToRateSpec(pl.download);
    var base := ["tc", "class", "add", "dev", iface, "parent", "1:1", "classid", ClassId(minor), "htb",
                 "rate", rate, "ceil", rate, "prio", "5"];
    if pl.burstDownload > 0 then
      var b := Decimal(Rates.BurstBytesPreferringConfig(pl.burstDownload, pl.download));
      base + ["burst", b, "cburst", b]
    else base
  }

  function FilterArgv(iface: string, prio: nat, ip: string, minor: nat): Argv
  {
    ["tc", "filter", "add", "dev", iface, "protocol", "ip", "parent", "1:", "prio", Decimal(prio),
     "u32", "match", "ip", "dst", ip + "/32", "flowid", ClassId(minor)]
  }

  function IngressArgv(iface: string): Argv
  {
    ["tc", "qdisc", "add", "dev", iface, "handle", "ffff:", "ingress"]
  }

  function PolicerArgv(iface: string, prio: nat, ip: string, pl: PeerLimit): Argv
  {
    ["tc", "filter", "add", "dev", iface, "parent", "ffff:", "protocol", "ip", "prio", Decimal(prio),
     "u32", "match", "ip", "src", ip + "/32",
     "police", "rate", Rates.KbpsToRateSpec(pl.upload),
     "burst", Decimal(Rates.BurstBytesPreferringConfig(pl.burstUpload, pl.upload)),
     "mtu", "1500", "conform-exceed", "drop"]
  }

  function DeleteArgv(iface: string, what: string): Argv
  {
    ["sh", "-c", Script.DeleteScript(iface, what)]
  }

  // ---------- Reading the vectors back ----------

  lemma ReadClassId(minor: nat)
    ensures Tc.ReadHandle(ClassId(minor)) == Some(Tc.Handle(1, minor))
  {
    var m := Numbers.Print(minor, 16);
    Numbers.ParsePrint(minor, 16);
    Text.IndexOfPrefix("1", ':', m);
    assert ClassId(minor) == "1" + [':'] + m;
    assert ClassId(minor)[2..] == m && ClassId(minor)[..1] == "1";
    ReadOne();
  }

  lemma ReadOne()
    ensures Numbers.Parse("1", 16) == Some(1)
  {
    assert "1"[..0] == "";
  }

  lemma ReadFixedHandles()
    ensures Tc.ReadHandle("1:") == Some(Tc.Handle(1, 0))
    ensures Tc.ReadHandle("1:1") == Some(Tc.Handle(1, 1))
    ensures Tc.ReadHandle("1:30") == Some(Tc.Handle(1, 0x30))
    ensures Numbers.Parse("30", 16) == Some(0x30)
  {
    ReadOne();
    assert "30"[..1] == "3" && "3"[..0] == "";
    assert Numbers.Value("3", 16) == 3;
    assert Numbers.Value("30", 16) == 0x30;
    Text.IndexOfPrefix("1", ':', "");
    Text.IndexOfPrefix("1", ':', "1");
    Text.IndexOfPrefix("1", ':', "30");
    assert "1:" == "1" + [':'] + "" && "1:1" == "1" + [':'] + "1" && "1:30" == "1" + [':'] + "30";
    assert "1:"[2..] == "" && "1:1"[2..] == "1" && "1:30"[2..] == "30";
    assert "1:"[..1] == "1" && "1:1"[..1] == "1" && "1:30"[..1] == "1";
  }

  lemma AppendZero(s: string, n: nat)
    requires Numbers.Parse(s, 10) == Some(n)
    ensures Numbers.Parse(s + ['0'], 10) == Some(10 * n)
  {
    assert (s + ['0'])[..|s|] == s;
  }

  lemma ReadRootCeil()
    ensures Tc.ReadRate(ROOT_CEIL) == Some(LINE_RATE)
  {
    var a := "1" + ['0'] + ['0'] + ['0'];
    var n := a + ['0'] + ['0'];
    assert "1"[..0] == "";
    assert Numbers.Value("1", 10) == 1;
    AppendZero("1", 1);
    AppendZero("1" + ['0'], 10);
    AppendZero("1" + ['0'] + ['0'], 100);
    AppendZero(a, 1000);
    AppendZero(a + ['0'], 10000);
    assert ROOT_CEIL == n + "mbit";
    ReadMegabits(n, 100000);
  }

  lemma ReadMegabits(n: string, v: nat)
    requires Numbers.Parse(n, 10) == Some(v)
    ensures Tc.ReadRate(n + "mbit") == Some(v * 1000000)
  {
    var s := n + "mbit";
    assert s[..|n|] == n && s[|n|..] == "mbit";
  }

  lemma ReadRateSpec(kbps: int)
    requires kbps > 0
    ensures Tc.ReadRate(Rates.KbpsToRateSpec(kbps)) == Some(Rates.BitsPerSecond(kbps))
  {
    var n := Numbers.Print(Rates.BitsPerSecond(kbps), 10);
    var s := n + "bit";
    assert s == Rates.KbpsToRateSpec(kbps);
    assert s[..|n|] == n && s[|n|..] == "bit";
    assert Numbers.IsDigit(n[|n| - 1], 10);
    if |s| >= 4 {
      assert s[|s| - 4..][0] == n[|n| - 1] && "mbit"[0] == 'm';
    }
    Numbers.ParsePrint(Rates.BitsPerSecond(kbps), 10);
  }

  /** The class a download-limited peer gets. */
  function PeerClass(pl: PeerLimit): Tc.Class
    requires pl.download > 0
  {
    var bits := Rates.BitsPerSecond(pl.download);
    var burst := if pl.burstDownload > 0
                 then Some(Rates.BurstBytesPreferringConfig(pl.burstDownload, pl.download)) else None;
    Tc.Class(1, bits, bits, 5, burst)
  }

  const TOP_CLASS := Tc.Class(0, LINE_RATE, LINE_RATE, 0, None)
  const DEFAULT_CLASS := Tc.Class(1, LINE_RATE, LINE_RATE, 7, None)

  /** On an interface whose name is one shell word the two scripts delete its qdiscs. */
  lemma ReadDeletes(iface: string)
    requires ShellQuote.ShellWord(iface)
    ensures Tc.Read(iface, DeleteArgv(iface, "ingress")) == Tc.Asks(Tc.DeleteIngress)
    ensures Tc.Read(iface, DeleteArgv(iface, "root")) == Tc.Asks(Tc.DeleteRoot)
  {
    Script.CommandWords();
    Script.DeleteScriptReads(iface, "ingress");
    Script.DeleteScriptReads(iface, "root");
    ReadDelete(iface, "ingress");
    ReadDelete(iface, "root");
  }

  lemma ReadDelete(iface: string, what: string)
    requires what == "ingress" || what == "root"
    ensures Tc.ReadScript(iface, Script.Runs(Script.COMMAND + [iface, what], true))
         == Tc.Asks(if what == "ingress" then Tc.DeleteIngress else Tc.DeleteRoot)
  {
    var ws := Script.COMMAND + [iface, what];
    assert ws[..4] == Script.COMMAND && ws[4] == iface && ws[5..] == [what];
    assert "ingress"[0] != "root"[0];
  }

  /** On any other interface they do nothing, are refused, or do what cannot be told. */
  lemma ReadMissedDelete(iface: string, what: string)
    requires what == "ingress" || what == "root"
    requires !ShellQuote.ShellWord(iface)
    ensures var r := Tc.Read(iface, DeleteArgv(iface, what));
            r == Tc.Asks(Tc.Nothing) || r == Tc.Refused || r == Tc.Unclear
  {
    Script.OnlyShellWordsReach(iface, what);
  }

  lemma ReadRoot(iface: string)
    ensures Tc.Read(iface, RootArgv(iface)) == Tc.Asks(Tc.AddRoot(Tc.Handle(1, 0), 0x30))
  {
    RootTexts(iface);
    Tc.ReadsTexts(iface, RootArgv(iface), Tc.RootTexts("1:", "30"));
    ReadFixedHandles();
  }

  lemma RootTexts(iface: string)
    ensures Tc.ReadTexts(iface, RootArgv(iface)) == Some(Tc.RootTexts("1:", "30"))
  {
  }

  lemma ReadIngress(iface: string)
    ensures Tc.Read(iface, IngressArgv(iface)) == Tc.Asks(Tc.AddIngress)
  {
    assert Tc.ReadTexts(iface, IngressArgv(iface)) == Some(Tc.IngressTexts);
    Tc.ReadsTexts(iface, IngressArgv(iface), Tc.IngressTexts);
  }

  lemma NotQdisc()
    ensures "class" != "qdisc" && "filter" != "qdisc" && "filter" != "class"
  {
    assert "class"[0] != "qdisc"[0] && "filter"[0] != "qdisc"[0] && "filter"[0] != "class"[0];
  }

  lemma ReadSmallNumerals()
    ensures Numbers.Parse("5", 10) == Some(5) && Numbers.Parse("7", 10) == Some(7)
  {
    assert "5"[..0] == "" && "7"[..0] == "";
    assert Numbers.Value("5", 10) == 5 && Numbers.Value("7", 10) == 7;
  }

  lemma TopClassTexts(iface: string)
    ensures Tc.ReadTexts(iface, TopClassArgv(iface))
         == Some(Tc.ClassTexts("1:", "1:1", ROOT_CEIL, ROOT_CEIL, None, None))
  {
    NotQdisc();
  }

  lemma ReadTopClass(iface: string)
    ensures Tc.Read(iface, TopClassArgv(iface)) == Tc.Asks(Tc.AddClass(Tc.Handle(1, 0), Tc.Handle(1, 1), TOP_CLASS))
  {
    TopClassTexts(iface);
    Tc.ReadsTexts(iface, TopClassArgv(iface), Tc.ClassTexts("1:", "1:1", ROOT_CEIL, ROOT_CEIL, None, None));
    ReadFixedHandles();
    ReadRootCeil();
  }

  lemma DefaultClassTexts(iface: string)
    ensures Tc.ReadTexts(iface, DefaultClassArgv(iface))
         == Some(Tc.ClassTexts("1:1", "1:30", ROOT_CEIL, ROOT_CEIL, Some("7"), None))
  {
    NotQdisc();
  }

  lemma ReadDefaultClass(iface: string)
    ensures Tc.Read(iface, DefaultClassArgv(iface))
         == Tc.Asks(Tc.AddClass(Tc.Handle(1, 1), Tc.Handle(1, 0x30), DEFAULT_CLASS))
  {
    DefaultClassTexts(iface);
    Tc.ReadsTexts(iface, DefaultClassArgv(iface),
                  Tc.ClassTexts("1:1", "1:30", ROOT_CEIL, ROOT_CEIL, Some("7"), None));
    ReadFixedHandles();
    ReadRootCeil();
    ReadSmallNumerals();
  }

  lemma PeerClassTexts(iface: string, id: string, rate: string, bytes: string)
    ensures var a := ["tc", "class", "add", "dev", iface, "parent", "1:1", "classid", id, "htb",
                      "rate", rate, "ceil", rate, "prio", "5"];
            && Tc.ReadTexts(iface, a) == Some(Tc.ClassTexts("1:1", id, rate, rate, Some("5"), None))
            && Tc.ReadTexts(iface, a + ["burst", bytes, "cburst", bytes])
               == Some(Tc.ClassTexts("1:1", id, rate, rate, Some("5"), Some(bytes)))
  {
    NotQdisc();
  }

  /** The texts of a peer's class, given by what they denote. */
  lemma PeerClassDenoted(id: string, minor: nat, rate: string, bits: nat, bytes: Option<string>, burst: Option<nat>)
    requires Tc.ReadHandle(id) == Some(Tc.Handle(1, minor)) && Tc.ReadRate(rate) == Some(bits)
    requires Tc.ReadOptional(bytes) == Some(burst)
    ensures Tc.Denoted(Tc.ClassTexts("1:1", id, rate, rate, Some("5"), bytes))
         == Some(Tc.AddClass(Tc.Handle(1, 1), Tc.Handle(1, minor), Tc.Class(1, bits, bits, 5, burst)))
  {
    ReadFixedHandles();
    ReadSmallNumerals();
  }

  lemma ReadPeerClass(iface: string, minor: nat, pl: PeerLimit)
    requires pl.download > 0
    ensures Tc.Read(iface, PeerClassArgv(iface, minor, pl))
         == Tc.Asks(Tc.AddClass(Tc.Handle(1, 1), Tc.Handle(1, minor), PeerClass(pl)))
  {
    var id, rate, bits := ClassId(minor), Rates.KbpsToRateSpec(pl.download), Rates.BitsPerSecond(pl.download);
    var b := Rates.BurstBytesPreferringConfig(pl.burstDownload, pl.download);
    var bytes := if pl.burstDownload > 0 then Some(Decimal(b)) else None;
    ReadClassId(minor);
    ReadRateSpec(pl.download);
    Numbers.ParsePrint(b, 10);
    PeerClassTexts(iface, id, rate, Decimal(b));
    PeerClassDenoted(id, minor, rate, bits, bytes, if pl.burstDownload > 0 then Some(b) else None);
    Tc.ReadsTexts(iface, PeerClassArgv(iface, minor, pl), Tc.ClassTexts("1:1", id, rate, rate, Some("5"), bytes));
  }

  lemma ReadCidrHost(ip: string)
    ensures Tc.Before(ip + "/32", "/32") == Some(ip)
  {
  }

  lemma PeerFilterTexts(iface: string, prio: string, cidr: string, id: string)
    ensures Tc.ReadTexts(iface, ["tc", "filter", "add", "dev", iface, "protocol", "ip", "parent", "1:", "prio", prio,
                                 "u32", "match", "ip", "dst", cidr, "flowid", id])
         == Some(Tc.FilterTexts("1:", prio, cidr, id))
  {
    NotQdisc();
  }

  lemma ReadPeerFilter(iface: string, prio: nat, ip: string, minor: nat)
    ensures Tc.Read(iface, FilterArgv(iface, prio, ip, minor))
         == Tc.Asks(Tc.AddFilter(Tc.Handle(1, 0), Tc.Filter(prio, ip, minor), 1))
  {
    ReadClassId(minor);
    ReadCidrHost(ip);
    ReadFixedHandles();
    Numbers.ParsePrint(prio, 10);
    PeerFilterTexts(iface, Decimal(prio), ip + "/32", ClassId(minor));
    Tc.ReadsTexts(iface, FilterArgv(iface, prio, ip, minor),
                  Tc.FilterTexts("1:", Decimal(prio), ip + "/32", ClassId(minor)));
  }

  lemma PeerPolicerTexts(iface: string, prio: string, cidr: string, rate: string, bytes: string)
    ensures Tc.ReadTexts(iface, ["tc", "filter", "add", "dev", iface, "parent", "ffff:", "protocol", "ip", "prio", prio,
                                 "u32", "match", "ip", "src", cidr, "police", "rate", rate, "burst", bytes,
                                 "mtu", "1500", "conform-exceed", "drop"])
         == Some(Tc.PolicerTexts(prio, cidr, rate, bytes))
  {
    NotQdisc();
  }

  /** The texts of a policer, given by what they denote. */
  lemma PolicerDenoted(prio: string, cidr: string, rate: string, bytes: string, p: Tc.Policer)
    requires Numbers.Parse(prio, 10) == Some(p.prio) && Tc.Before(cidr, "/32") == Some(p.src)
    requires Tc.ReadRate(rate) == Some(p.rate) && Numbers.Parse(bytes, 10) == Some(p.burst)
    ensures Tc.Denoted(Tc.PolicerTexts(prio, cidr, rate, bytes)) == Some(Tc.AddPolicer(p))
  {
  }

  lemma ReadPeerPolicer(iface: string, prio: nat, ip: string, pl: PeerLimit)
    requires pl.upload > 0
    ensures Tc.Read(iface, PolicerArgv(iface, prio, ip, pl)) == Tc.Asks(Tc.AddPolicer(PeerPolicer(prio, ip, pl)))
  {
    var burst := Rates.BurstBytesPreferringConfig(pl.burstUpload, pl.upload);
    var rate := Rates.KbpsToRateSpec(pl.upload);
    ReadCidrHost(ip);
    ReadRateSpec(pl.upload);
    Numbers.ParsePrint(prio, 10);
    Numbers.ParsePrint(burst, 10);
    PolicerDenoted(Decimal(prio), ip + "/32", rate, Decimal(burst), PeerPolicer(prio, ip, pl));
    PeerPolicerTexts(iface, Decimal(prio), ip + "/32", rate, Decimal(burst));
    Tc.ReadsTexts(iface, PolicerArgv(iface, prio, ip, pl),
                  Tc.PolicerTexts(Decimal(prio), ip + "/32", rate, Decimal(burst)));
  }

  function PeerPolicer(prio: nat, ip: string, pl: PeerLimit): Tc.Policer
    requires pl.upload > 0
  {
    Tc.Policer(prio, ip, Rates.BitsPerSecond(pl.upload),
               Rates.BurstBytesPreferringConfig(pl.burstUpload, pl.upload))
  }

  // ---------- The compiled program ----------

  predicate Limited(peers: Peers, ks: seq<string>)
  {
    forall i :: 0 <= i < |ks| ==> Lookup(peers, ks[i]).download > 0
  }

  predicate Capped(peers: Peers, ks: seq<string>)
  {
    forall i :: 0 <= i < |ks| ==> Lookup(peers, ks[i]).upload > 0
  }

  /** The keys with a positive download cap, in the given order. */
  function DownloadKeys(keys: seq<string>, peers: Peers): (ks: seq<string>)
    ensures Limited(peers, ks)
  {
    if keys == [] then []
    else
      var last := keys[|keys| - 1];
      var front := DownloadKeys(keys[..|keys| - 1], peers);
      if Lookup(peers, last).download > 0 then front + [last] else front
  }

  function UploadKeys(keys: seq<string>, peers: Peers): (ks: seq<string>)
    ensures Capped(peers, ks)
  {
    if keys == [] then []
    else
      var last := keys[|keys| - 1];
      var front := UploadKeys(keys[..|keys| - 1], peers);
      if Lookup(peers, last).upload > 0 then front + [last] else front
  }

  function Take<T>(n: nat, s: seq<T>): seq<T>
  {
    if |s| <= n then s else s[..n]
  }

  /** The peers that get a class: the first 65181 download-limited addresses in string order. */
  function Classed(peers: Peers): (ks: seq<string>)
    ensures Limited(peers, ks) && |ks| <= MAX_CLASSES
  {
    Take(MAX_CLASSES, DownloadKeys(Sorting.SortedKeys(peers.Keys), peers))
  }

  /** The peers that get a policer: every upload-limited address. */
  function Policed(peers: Peers): (ks: seq<string>)
    ensures Capped(peers, ks)
  {
    UploadKeys(Sorting.SortedKeys(peers.Keys), peers)
  }

  /** The class of one download-limited peer and the filter leading to it. */
  function PeerCommands(iface: string, prio: nat, minor: nat, ip: string, pl: PeerLimit): (cmds: seq<Argv>)
    ensures |cmds| == 2
  {
    [PeerClassArgv(iface, minor, pl), FilterArgv(iface, prio, ip, minor)]
  }

  function ClassCommands(iface: string, peers: Peers, ks: seq<string>): seq<Argv>
  {
    if ks == [] then []
    else
      var n := |ks| - 1;
      ClassCommands(iface, peers, ks[..n])
      + PeerCommands(iface, FIRST_DOWNLOAD_PRIO + n, FIRST_MINOR + n, ks[n], Lookup(peers, ks[n]))
  }

  function PolicerCommands(iface: string, peers: Peers, ks: seq<string>): seq<Argv>
  {
    if ks == [] then []
    else
      var n := |ks| - 1;
      PolicerCommands(iface, peers, ks[..n]) + [PolicerArgv(iface, FIRST_UPLOAD_PRIO + n, ks[n], Lookup(peers, ks[n]))]
  }

  function DownloadHeader(iface: string): (cmds: seq<Argv>)
    ensures |cmds| == 3
  {
    [RootArgv(iface), TopClassArgv(iface), DefaultClassArgv(iface)]
  }

  function UploadHeader(iface: string): (cmds: seq<Argv>)
    ensures |cmds| == 1
  {
    [IngressArgv(iface)]
  }

  function DownloadShape(iface: string, peers: Peers): seq<Argv>
  {
    if Classed(peers) == [] then []
    else DownloadHeader(iface) + ClassCommands(iface, peers, Classed(peers))
  }

  function UploadShape(iface: string, peers: Peers): seq<Argv>
  {
    if Policed(peers) == [] then [] else UploadHeader(iface) + PolicerCommands(iface, peers, Policed(peers))
  }

  /** The shaping commands alone. */
  function ShapeFor(iface: string, peers: Peers): seq<Argv>
  {
    if iface == "" then [] else DownloadShape(iface, peers) + UploadShape(iface, peers)
  }

  function Teardown(iface: string): seq<Argv>
  {
    [DeleteArgv(iface, "ingress"), DeleteArgv(iface, "root")]
  }

  /** The whole program: teardown, then shaping. */
  function PlanFor(wgIface: string, peers: Peers): seq<Argv>
  {
    Teardown(Text.Trim(wgIface)) + ShapeFor(Text.Trim(wgIface), peers)
  }

  // ---------- The source's loops build that program ----------

  lemma DownloadKeysNext(keys: seq<string>, i: nat, peers: Peers)
    requires i < |keys|
    ensures DownloadKeys(keys[..i + 1], peers)
         == DownloadKeys(keys[..i], peers) + if Lookup(peers, keys[i]).download > 0 then [keys[i]] else []
  {
    assert keys[..i + 1][..i] == keys[..i];
  }

  lemma UploadKeysNext(keys: seq<string>, i: nat, peers: Peers)
    requires i < |keys|
    ensures UploadKeys(keys[..i + 1], peers)
         == UploadKeys(keys[..i], peers) + if Lookup(peers, keys[i]).upload > 0 then [keys[i]] else []
  {
    assert keys[..i + 1][..i] == keys[..i];
  }

  lemma {:induction false} DownloadKeysPrefix(keys: seq<string>, i: nat, peers: Peers)
    requires i <= |keys|
    ensures DownloadKeys(keys[..i], peers) <= DownloadKeys(keys, peers)
    decreases |keys| - i
  {
    if i == |keys| {
      assert keys[..i] == keys;
    } else {
      DownloadKeysNext(keys, i, peers);
      DownloadKeysPrefix(keys, i + 1, peers);
    }
  }

  /** Stopping at the end of the keys or at the last class number takes what `Take` takes. */
  lemma TakenAll(keys: seq<string>, i: nat, peers: Peers)
    requires i <= |keys|
    requires |DownloadKeys(keys[..i], peers)| == MAX_CLASSES
          || (i == |keys| && |DownloadKeys(keys[..i], peers)| < MAX_CLASSES)
    ensures Take(MAX_CLASSES, DownloadKeys(keys, peers)) == DownloadKeys(keys[..i], peers)
  {
    assert keys[..|keys|] == keys;
    DownloadKeysPrefix(keys, i, peers);
  }

  lemma ClassCommandsNext(iface: string, peers: Peers, ks: seq<string>, k: string)
    ensures ClassCommands(iface, peers, ks + [k])
         == ClassCommands(iface, peers, ks)
            + PeerCommands(iface, FIRST_DOWNLOAD_PRIO + |ks|, FIRST_MINOR + |ks|, k, Lookup(peers, k))
  {
    assert (ks + [k])[..|ks|] == ks;
  }

  method AppendDownloads(iface: string, keys: seq<string>, peers: Peers) returns (cmds: seq<Argv>)
    ensures cmds == ClassCommands(iface, peers, Take(MAX_CLASSES, DownloadKeys(keys, peers)))
  {
    cmds := [];
    var fi, minor := FIRST_DOWNLOAD_PRIO, FIRST_MINOR;
    ghost var taken := [];
    var i := 0;
    while i < |keys|
      invariant i <= |keys|
      invariant taken == DownloadKeys(keys[..i], peers) && |taken| < MAX_CLASSES
      invariant fi == FIRST_DOWNLOAD_PRIO + |taken| && minor == FIRST_MINOR + |taken|
      invariant cmds == ClassCommands(iface, peers, taken)
    {
      var pl := Lookup(peers, keys[i]);
      DownloadKeysNext(keys, i, peers);
      i := i + 1;
      if pl.download <= 0 {
        continue;
      }
      var rateSpec := Rates.KbpsToRateSpec(pl.download);
      if rateSpec == "" {
        assert false;
      }
      ClassCommandsNext(iface, peers, taken, keys[i - 1]);
      taken := taken + [keys[i - 1]];
      cmds := cmds + PeerCommands(iface, fi, minor, keys[i - 1], pl);
      fi := fi + 1;
      minor := minor + 1;
      if minor > LAST_MINOR {
        break;
      }
    }
    TakenAll(keys, i, peers);
  }

  method AppendUploads(iface: string, keys: seq<string>, peers: Peers) returns (cmds: seq<Argv>)
    ensures cmds == PolicerCommands(iface, peers, UploadKeys(keys, peers))
  {
    cmds := [];
    var pi := FIRST_UPLOAD_PRIO;
    ghost var taken := [];
    for i := 0 to |keys|
      invariant taken == UploadKeys(keys[..i], peers)
      invariant pi == FIRST_UPLOAD_PRIO + |taken|
      invariant cmds == PolicerCommands(iface, peers, taken)
    {
      var pl := Lookup(peers, keys[i]);
      UploadKeysNext(keys, i, peers);
      if pl.upload <= 0 {
        continue;
      }
      ghost var before := taken;
      taken := taken + [keys[i]];
      assert taken[..|taken| - 1] == before;
      cmds := cmds + [PolicerArgv(iface, pi, keys[i], pl)];
      pi := pi + 1;
    }
    assert keys[..|keys|] == keys;
  }

  method Needs(keys: seq<string>, peers: Peers) returns (needsDL: bool, needsUL: bool)
    ensures needsDL <==> DownloadKeys(keys, peers) != []
    ensures needsUL <==> UploadKeys(keys, peers) != []
  {
    needsDL, needsUL := false, false;
    for i := 0 to |keys|
      invariant needsDL <==> DownloadKeys(keys[..i], peers) != []
      invariant needsUL <==> UploadKeys(keys[..i], peers) != []
    {
      DownloadKeysNext(keys, i, peers);
      UploadKeysNext(keys, i, peers);
      var pl := Lookup(peers, keys[i]);
      if pl.download > 0 {
        needsDL := true;
      }
      if pl.upload > 0 {
        needsUL := true;
      }
    }
    assert keys[..|keys|] == keys;
  }

  method PeerShapeAppend(iface: string, peers: Peers) returns (cmds: seq<Argv>)
    ensures cmds == ShapeFor(iface, peers)
  {
    cmds := [];
    if iface == "" || |peers| == 0 {
      NothingToShape(iface, peers);
      return;
    }
    var keys := Sorting.SortedKeys(peers.Keys);
    var needsDL, needsUL := Needs(keys, peers);
    if needsDL {
      var more := AppendDownloads(iface, keys, peers);
      cmds := DownloadHeader(iface) + more;
    }
    assert cmds == DownloadShape(iface, peers);
    if needsUL {
      var more := AppendUploads(iface, keys, peers);
      cmds := cmds + (UploadHeader(iface) + more);
    }
  }

  lemma NothingToShape(iface: string, peers: Peers)
    requires iface == "" || |peers| == 0
    ensures ShapeFor(iface, peers) == []
  {
    if |peers| == 0 {
      assert peers.Keys == {};
    }
  }

  /** `Plan`: a missing map is the empty one. */
  method Plan(wgIface: string, peers: Peers) returns (cmds: seq<Argv>)
    ensures cmds == PlanFor(wgIface, peers)
  {
    var iface := Text.Trim(wgIface);
    cmds := [DeleteArgv(iface, "ingress"), DeleteArgv(iface, "root")];
    if iface == "" || |peers| == 0 {
      NothingToShape(iface, peers);
      return;
    }
    var more := PeerShapeAppend(iface, peers);
    cmds := cmds + more;
  }
}
