/**
 * What the compiled program does: from any earlier traffic-control state it ends in the state
 * `StateFor(peers)`, and that state treats every address as the limit map says.
 */
module Shaping {
  import opened Wrappers
  import opened Limits
  import opened Plan
  import Rates
  import Script
  import ShellQuote
  import Sorting
  import Tc
  import Text

  // ---------- The state the program reaches ----------

  /** The root qdisc once the classes and filters of `ks` are in place. */
  function HtbFor(peers: Peers, ks: seq<string>): (q: Tc.Htb)
    requires Limited(peers, ks)
    ensures q.major == 1 && q.fallback == 0x30 && |q.filters| == |ks|
    ensures forall m :: m in q.classes <==> m == 1 || m == 0x30 || FIRST_MINOR <= m < FIRST_MINOR + |ks|
    ensures q.classes[1] == TOP_CLASS && q.classes[0x30] == DEFAULT_CLASS
    ensures forall j :: 0 <= j < |ks| ==> q.classes[FIRST_MINOR + j] == PeerClass(Lookup(peers, ks[j]))
    ensures forall j :: 0 <= j < |ks| ==>
              q.filters[j] == Tc.Filter(FIRST_DOWNLOAD_PRIO + j, ks[j], FIRST_MINOR + j)
  {
    if ks == [] then Tc.Htb(1, 0x30, map[1 := TOP_CLASS, 0x30 := DEFAULT_CLASS], [])
    else
      var n := |ks| - 1;
      var q := HtbFor(peers, ks[..n]);
      q.(classes := q.classes[FIRST_MINOR + n := PeerClass(Lookup(peers, ks[n]))],
         filters := q.filters + [Tc.Filter(FIRST_DOWNLOAD_PRIO + n, ks[n], FIRST_MINOR + n)])
  }

  function PolicersFor(peers: Peers, ks: seq<string>): (ps: seq<Tc.Policer>)
    requires Capped(peers, ks)
    ensures |ps| == |ks|
    ensures forall j :: 0 <= j < |ks| ==>
              ps[j] == PeerPolicer(FIRST_UPLOAD_PRIO + j, ks[j], Lookup(peers, ks[j]))
  {
    seq(|ks|, j requires 0 <= j < |ks| => PeerPolicer(FIRST_UPLOAD_PRIO + j, ks[j], Lookup(peers, ks[j])))
  }

  // ---------- The program as typed commands ----------

  function ClassOps(peers: Peers, ks: seq<string>): seq<Tc.Command>
    requires Limited(peers, ks)
  {
    if ks == [] then []
    else
      var n := |ks| - 1;
      ClassOps(peers, ks[..n]) + PeerOps(n, ks[n], Lookup(peers, ks[n]))
  }

  function PeerOps(n: nat, ip: string, pl: PeerLimit): seq<Tc.Command>
    requires pl.download > 0
  {
    [Tc.AddClass(Tc.Handle(1, 1), Tc.Handle(1, FIRST_MINOR + n), PeerClass(pl)),
     Tc.AddFilter(Tc.Handle(1, 0), Tc.Filter(FIRST_DOWNLOAD_PRIO + n, ip, FIRST_MINOR + n), 1)]
  }

  const HEADER_OPS: seq<Tc.Command> :=
    [Tc.AddRoot(Tc.Handle(1, 0), 0x30),
     Tc.AddClass(Tc.Handle(1, 0), Tc.Handle(1, 1), TOP_CLASS),
     Tc.AddClass(Tc.Handle(1, 1), Tc.Handle(1, 0x30), DEFAULT_CLASS)]

  function PolicerOps(peers: Peers, ks: seq<string>): seq<Tc.Command>
    requires Capped(peers, ks)
  {
    if ks == [] then []
    else
      var n := |ks| - 1;
      PolicerOps(peers, ks[..n]) + [Tc.AddPolicer(PeerPolicer(FIRST_UPLOAD_PRIO + n, ks[n], Lookup(peers, ks[n])))]
  }

  lemma {:induction false} ReadClassCommands(iface: string, peers: Peers, ks: seq<string>)
    requires Limited(peers, ks)
    ensures Tc.Reads(iface, ClassCommands(iface, peers, ks), ClassOps(peers, ks))
  {
    if ks != [] {
      var n := |ks| - 1;
      var pl := Lookup(peers, ks[n]);
      ReadClassCommands(iface, peers, ks[..n]);
      ReadPeerClass(iface, FIRST_MINOR + n, pl);
      ReadPeerFilter(iface, FIRST_DOWNLOAD_PRIO + n, ks[n], FIRST_MINOR + n);
    }
  }

  lemma {:induction false} ReadPolicerCommands(iface: string, peers: Peers, ks: seq<string>)
    requires Capped(peers, ks)
    ensures Tc.Reads(iface, PolicerCommands(iface, peers, ks), PolicerOps(peers, ks))
  {
    if ks != [] {
      var n := |ks| - 1;
      ReadPolicerCommands(iface, peers, ks[..n]);
      ReadPeerPolicer(iface, FIRST_UPLOAD_PRIO + n, ks[n], Lookup(peers, ks[n]));
    }
  }

  /** The last peer's class and filter fit on top of those of the peers before it. */
  lemma RunPeer(peers: Peers, ks: seq<string>, ing: Option<seq<Tc.Policer>>)
    requires Limited(peers, ks) && 0 < |ks| <= MAX_CLASSES
    ensures var n := |ks| - 1;
            Tc.RunCommandsFrom(Tc.State(Some(HtbFor(peers, ks[..n])), ing), PeerOps(n, ks[n], Lookup(peers, ks[n])))
            == Tc.Outcome(Tc.State(Some(HtbFor(peers, ks)), ing), true)
  {
    var n := |ks| - 1;
    var q := HtbFor(peers, ks[..n]);
    var ops := PeerOps(n, ks[n], Lookup(peers, ks[n]));
    var st1 := Tc.State(Some(q.(classes := HtbFor(peers, ks).classes)), ing);
    assert Tc.Step(Tc.State(Some(q), ing), ops[0]) == Some(st1);
    Tc.RunTwo(Tc.State(Some(q), ing), ops[0], st1, ops[1], Tc.State(Some(HtbFor(peers, ks)), ing));
  }

  lemma {:induction false} RunClasses(peers: Peers, ks: seq<string>, ing: Option<seq<Tc.Policer>>)
    requires Limited(peers, ks) && |ks| <= MAX_CLASSES
    ensures Tc.RunCommandsFrom(Tc.State(Some(HtbFor(peers, [])), ing), ClassOps(peers, ks))
         == Tc.Outcome(Tc.State(Some(HtbFor(peers, ks)), ing), true)
  {
    if ks != [] {
      var n := |ks| - 1;
      RunClasses(peers, ks[..n], ing);
      RunPeer(peers, ks, ing);
      Tc.RunCommandsConcat(Tc.State(Some(HtbFor(peers, [])), ing), ClassOps(peers, ks[..n]),
                           PeerOps(n, ks[n], Lookup(peers, ks[n])));
    }
  }

  /** Policers are added up to the last priority; one more is refused. */
  lemma {:induction false} RunPolicers(peers: Peers, ks: seq<string>, root: Option<Tc.Htb>)
    requires Capped(peers, ks)
    ensures Tc.RunCommandsFrom(Tc.State(root, Some([])), PolicerOps(peers, ks))
         == Tc.Outcome(Tc.State(root, Some(PolicersFor(peers, Take(MAX_POLICERS, ks)))), |ks| <= MAX_POLICERS)
  {
    if ks != [] {
      var n := |ks| - 1;
      var op := Tc.AddPolicer(PeerPolicer(FIRST_UPLOAD_PRIO + n, ks[n], Lookup(peers, ks[n])));
      RunPolicers(peers, ks[..n], root);
      RunLastPolicer(peers, ks, root);
      if n > MAX_POLICERS {
        assert Take(MAX_POLICERS, ks) == Take(MAX_POLICERS, ks[..n]);
      }
      Tc.RunCommandsConcat(Tc.State(root, Some([])), PolicerOps(peers, ks[..n]), [op]);
    }
  }

  lemma RunLastPolicer(peers: Peers, ks: seq<string>, root: Option<Tc.Htb>)
    requires Capped(peers, ks) && ks != []
    ensures var n := |ks| - 1;
            var op := Tc.AddPolicer(PeerPolicer(FIRST_UPLOAD_PRIO + n, ks[n], Lookup(peers, ks[n])));
            n <= MAX_POLICERS ==>
              Tc.RunCommandsFrom(Tc.State(root, Some(PolicersFor(peers, ks[..n]))), [op])
              == Tc.Outcome(Tc.State(root, Some(PolicersFor(peers, Take(MAX_POLICERS, ks)))), |ks| <= MAX_POLICERS)
  {
    var n := |ks| - 1;
    var op := Tc.AddPolicer(PeerPolicer(FIRST_UPLOAD_PRIO + n, ks[n], Lookup(peers, ks[n])));
    assert [op][1..] == [];
    if n < MAX_POLICERS {
      assert PolicersFor(peers, ks) == PolicersFor(peers, ks[..n]) + [op.policer];
    } else if n == MAX_POLICERS {
      assert Take(MAX_POLICERS, ks) == ks[..n];
    }
  }

  // ---------- The whole program ----------

  /** The state after the program, whatever came before it. */
  function StateFor(peers: Peers): Tc.State
  {
    Tc.State(
      if Classed(peers) == [] then None else Some(HtbFor(peers, Classed(peers))),
      if Policed(peers) == [] then None else Some(PolicersFor(peers, Take(MAX_POLICERS, Policed(peers)))))
  }

  function DownloadOps(peers: Peers): seq<Tc.Command>
  {
    if Classed(peers) == [] then [] else HEADER_OPS + ClassOps(peers, Classed(peers))
  }

  function UploadOps(peers: Peers): seq<Tc.Command>
  {
    if Policed(peers) == [] then [] else [Tc.AddIngress] + PolicerOps(peers, Policed(peers))
  }

  const TEARDOWN_OPS: seq<Tc.Command> := [Tc.DeleteIngress, Tc.DeleteRoot]

  function PlanOps(peers: Peers): seq<Tc.Command>
  {
    TEARDOWN_OPS + (DownloadOps(peers) + UploadOps(peers))
  }

  lemma ReadTeardown(iface: string)
    requires ShellQuote.ShellWord(iface)
    ensures Tc.Reads(iface, Teardown(iface), TEARDOWN_OPS)
  {
    ReadDeletes(iface);
  }

  lemma ReadDownloadHeader(iface: string)
    ensures Tc.Reads(iface, DownloadHeader(iface), HEADER_OPS)
  {
    ReadRoot(iface);
    ReadTopClass(iface);
    ReadDefaultClass(iface);
    Tc.ReadsThree(iface, RootArgv(iface), TopClassArgv(iface), DefaultClassArgv(iface), HEADER_OPS);
  }

  lemma ReadDownloadShape(iface: string, peers: Peers)
    ensures Tc.Reads(iface, DownloadShape(iface, peers), DownloadOps(peers))
  {
    if Classed(peers) != [] {
      ReadDownloadHeader(iface);
      ReadClassCommands(iface, peers, Classed(peers));
      Tc.ReadsConcat(iface, DownloadHeader(iface), ClassCommands(iface, peers, Classed(peers)),
                     HEADER_OPS, ClassOps(peers, Classed(peers)));
    }
  }

  lemma ReadUploadShape(iface: string, peers: Peers)
    ensures Tc.Reads(iface, UploadShape(iface, peers), UploadOps(peers))
  {
    if Policed(peers) != [] {
      ReadIngress(iface);
      ReadPolicerCommands(iface, peers, Policed(peers));
      Tc.ReadsConcat(iface, UploadHeader(iface), PolicerCommands(iface, peers, Policed(peers)),
                     [Tc.AddIngress], PolicerOps(peers, Policed(peers)));
    }
  }

  lemma ReadShape(iface: string, peers: Peers)
    requires iface != ""
    ensures Tc.Reads(iface, ShapeFor(iface, peers), DownloadOps(peers) + UploadOps(peers))
  {
    ReadDownloadShape(iface, peers);
    ReadUploadShape(iface, peers);
    Tc.ReadsConcat(iface, DownloadShape(iface, peers), UploadShape(iface, peers),
                   DownloadOps(peers), UploadOps(peers));
  }

  lemma RunHeader(ing: Option<seq<Tc.Policer>>)
    ensures Tc.RunCommandsFrom(Tc.State(None, ing), HEADER_OPS)
         == Tc.Outcome(Tc.State(Some(HtbFor(map[], [])), ing), true)
  {
    var q0 := Tc.Htb(1, 0x30, map[], []);
    var q1 := q0.(classes := map[1 := TOP_CLASS]);
    var rest := [HEADER_OPS[1], HEADER_OPS[2]];
    Tc.RunTwo(Tc.State(Some(q0), ing), rest[0], Tc.State(Some(q1), ing), rest[1],
              Tc.State(Some(HtbFor(map[], [])), ing));
    assert HEADER_OPS[1..] == rest;
  }

  lemma RunDownloadOps(peers: Peers, ing: Option<seq<Tc.Policer>>)
    ensures Tc.RunCommandsFrom(Tc.State(None, ing), DownloadOps(peers))
         == Tc.Outcome(Tc.State(StateFor(peers).root, ing), true)
  {
    if Classed(peers) != [] {
      RunHeader(ing);
      assert HtbFor(map[], []) == HtbFor(peers, []);
      Tc.RunCommandsConcat(Tc.State(None, ing), HEADER_OPS, ClassOps(peers, Classed(peers)));
      RunClasses(peers, Classed(peers), ing);
    }
  }

  lemma RunUploadOps(peers: Peers, root: Option<Tc.Htb>)
    ensures Tc.RunCommandsFrom(Tc.State(root, None), UploadOps(peers))
         == Tc.Outcome(Tc.State(root, StateFor(peers).ingress), |Policed(peers)| <= MAX_POLICERS)
  {
    if Policed(peers) != [] {
      var ops := UploadOps(peers);
      assert Tc.Step(Tc.State(root, None), ops[0]) == Some(Tc.State(root, Some([])));
      assert ops[1..] == PolicerOps(peers, Policed(peers));
      RunPolicers(peers, Policed(peers), root);
    }
  }

  /** What the shaping commands come to on a device that was not torn down. */
  function ShapeOutcome(peers: Peers, st: Tc.State): Tc.Outcome
  {
    if st.root.Some? && Classed(peers) != [] then Tc.Outcome(st, false)
    else
      var root := if st.root.Some? then st.root else StateFor(peers).root;
      if Policed(peers) == [] then Tc.Outcome(Tc.State(root, st.ingress), true)
      else if st.ingress.Some? then Tc.Outcome(Tc.State(root, st.ingress), false)
      else Tc.Outcome(Tc.State(root, StateFor(peers).ingress), |Policed(peers)| <= MAX_POLICERS)
  }

  lemma RunRefused(st: Tc.State, ops: seq<Tc.Command>)
    requires ops != [] && Tc.Step(st, ops[0]) == None
    ensures Tc.RunCommandsFrom(st, ops) == Tc.Outcome(st, false)
  {
  }

  lemma RunShapeOps(peers: Peers, st: Tc.State)
    ensures Tc.RunCommandsFrom(st, DownloadOps(peers) + UploadOps(peers)) == ShapeOutcome(peers, st)
  {
    var down, up := DownloadOps(peers), UploadOps(peers);
    Tc.RunCommandsConcat(st, down, up);
    if st.root.Some? && Classed(peers) != [] {
      RunRefused(st, down);
    } else {
      var root := if st.root.Some? then st.root else StateFor(peers).root;
      if st.root.None? {
        RunDownloadOps(peers, st.ingress);
      }
      assert Tc.RunCommandsFrom(st, down) == Tc.Outcome(Tc.State(root, st.ingress), true);
      if st.ingress.None? {
        RunUploadOps(peers, root);
      } else if Policed(peers) != [] {
        RunRefused(Tc.State(root, st.ingress), up);
      }
    }
  }

  lemma RunPlanOps(peers: Peers, st: Tc.State)
    ensures Tc.RunCommandsFrom(st, PlanOps(peers))
         == Tc.Outcome(StateFor(peers), |Policed(peers)| <= MAX_POLICERS)
  {
    Tc.RunTwo(st, Tc.DeleteIngress, st.(ingress := None), Tc.DeleteRoot, Tc.EMPTY);
    Tc.RunCommandsConcat(st, TEARDOWN_OPS, DownloadOps(peers) + UploadOps(peers));
    RunShapeOps(peers, Tc.EMPTY);
  }

  /** What a run is for: the one state that the map determines. */
  function Reached(peers: Peers): Tc.Outcome
  {
    Tc.Outcome(StateFor(peers), |Policed(peers)| <= MAX_POLICERS)
  }

  /** On an interface whose name is one shell word, every earlier state is replaced. */
  lemma PlanReplaces(wgIface: string, peers: Peers, st: Tc.State)
    requires ShellQuote.ShellWord(Text.Trim(wgIface))
    ensures Tc.Run(Text.Trim(wgIface), st, PlanFor(wgIface, peers)) == Some(Reached(peers))
  {
    var iface := Text.Trim(wgIface);
    ReadTeardown(iface);
    ReadShape(iface, peers);
    Tc.ReadsConcat(iface, Teardown(iface), ShapeFor(iface, peers),
                   TEARDOWN_OPS, DownloadOps(peers) + UploadOps(peers));
    Tc.RunReads(iface, st, PlanFor(wgIface, peers), PlanOps(peers));
    RunPlanOps(peers, st);
  }

  /** A reading that leaves every state as it is, or of which nothing can be told. */
  predicate Idle(r: Tc.Reading)
  {
    r == Tc.Asks(Tc.Nothing) || r == Tc.Refused || r == Tc.Unclear
  }

  lemma RunPast(iface: string, st: Tc.State, a: Tc.Argv, rest: seq<Tc.Argv>)
    requires a != [] && Idle(Tc.Read(iface, a))
    ensures var out := Tc.Run(iface, st, [a] + rest);
            out == None || out == Some(Tc.Outcome(st, false)) || out == Tc.Run(iface, st, rest)
  {
    assert ([a] + rest)[1..] == rest;
  }

  lemma RunPastTwo(iface: string, st: Tc.State, a: Tc.Argv, b: Tc.Argv, rest: seq<Tc.Argv>)
    requires a != [] && b != [] && Idle(Tc.Read(iface, a)) && Idle(Tc.Read(iface, b))
    ensures var out := Tc.Run(iface, st, [a, b] + rest);
            out == None || out == Some(Tc.Outcome(st, false)) || out == Tc.Run(iface, st, rest)
  {
    RunPast(iface, st, a, [b] + rest);
    RunPast(iface, st, b, rest);
    assert [a, b] + rest == [a] + ([b] + rest);
  }

  lemma RunShape(iface: string, peers: Peers, st: Tc.State)
    requires iface != ""
    ensures Tc.Run(iface, st, ShapeFor(iface, peers)) == Some(ShapeOutcome(peers, st))
  {
    ReadShape(iface, peers);
    Tc.RunReads(iface, st, ShapeFor(iface, peers), DownloadOps(peers) + UploadOps(peers));
    RunShapeOps(peers, st);
  }

  /**
   * On any other interface nothing is torn down: the run stops at once, its effect cannot be told, or the
   * shaping commands meet the old state.
   */
  lemma PlanMisses(wgIface: string, peers: Peers, st: Tc.State)
    requires Text.Trim(wgIface) != "" && !ShellQuote.ShellWord(Text.Trim(wgIface))
    ensures var out := Tc.Run(Text.Trim(wgIface), st, PlanFor(wgIface, peers));
            out == None || out == Some(Tc.Outcome(st, false)) || out == Some(ShapeOutcome(peers, st))
  {
    var iface := Text.Trim(wgIface);
    ReadMissedDelete(iface, "ingress");
    ReadMissedDelete(iface, "root");
    RunPastTwo(iface, st, DeleteArgv(iface, "ingress"), DeleteArgv(iface, "root"), ShapeFor(iface, peers));
    RunShape(iface, peers, st);
  }

  lemma ReadHashDelete(iface: string)
    requires iface != "" && iface[0] == '#' && '\n' !in iface
    ensures Tc.Read(iface, DeleteArgv(iface, "ingress")) == Tc.Refused
  {
    Script.CommandWords();
    Script.HashCommentsOut(iface, "ingress");
    assert Script.COMMAND[..4] == Script.COMMAND;
  }

  /** A name that starts with #: the first command is refused, and the run ends before it has begun. */
  lemma HashNameAborts(wgIface: string, peers: Peers, st: Tc.State)
    requires Text.Trim(wgIface) != "" && Text.Trim(wgIface)[0] == '#' && '\n' !in Text.Trim(wgIface)
    ensures Tc.Run(Text.Trim(wgIface), st, PlanFor(wgIface, peers)) == Some(Tc.Outcome(st, false))
  {
    var iface := Text.Trim(wgIface);
    ReadHashDelete(iface);
    assert PlanFor(wgIface, peers)[0] == DeleteArgv(iface, "ingress");
  }

  /** A device state that no map leads to. */
  function Stray(): Tc.State
  {
    Tc.State(Some(Tc.Htb(0, 0, map[], [])), Some([]))
  }

  lemma StrayIsNoState(peers: Peers)
    ensures StateFor(peers) != Stray()
  {
    assert StateFor(peers).root.Some? ==> StateFor(peers).root.value.major == 1;
  }

  /**
   * From every earlier state, also one that an aborted run left behind, the program ends in
   * `StateFor(peers)` with all its commands succeeding unless more than 65526 addresses carry an upload
   * cap. This is so exactly when the interface name is one shell word.
   */
  lemma PlanReachesState(wgIface: string, peers: Peers)
    requires Text.Trim(wgIface) != ""
    ensures (forall st :: Tc.Run(Text.Trim(wgIface), st, PlanFor(wgIface, peers)) == Some(Reached(peers)))
       <==> ShellQuote.ShellWord(Text.Trim(wgIface))
  {
    if ShellQuote.ShellWord(Text.Trim(wgIface)) {
      forall st ensures Tc.Run(Text.Trim(wgIface), st, PlanFor(wgIface, peers)) == Some(Reached(peers)) {
        PlanReplaces(wgIface, peers, st);
      }
    } else {
      PlanMisses(wgIface, peers, Stray());
      StrayIsNoState(peers);
      assert Tc.Run(Text.Trim(wgIface), Stray(), PlanFor(wgIface, peers)) != Some(Reached(peers));
    }
  }

  // ---------- What that state does to traffic ----------

  predicate DownloadLimited(peers: Peers, ip: string)
  {
    Lookup(peers, ip).download > 0
  }

  predicate UploadLimited(peers: Peers, ip: string)
  {
    Lookup(peers, ip).upload > 0
  }

  function DownloadPeers(peers: Peers): set<string>
  {
    set k | k in peers && DownloadLimited(peers, k)
  }

  function UploadPeers(peers: Peers): set<string>
  {
    set k | k in peers && UploadLimited(peers, k)
  }

  /** The members of `s` that come before `ip` in string order. */
  function Below(s: set<string>, ip: string): set<string>
  {
    set k | k in s && Sorting.Less(k, ip)
  }

  /** A download-limited address with fewer than 65181 others before it. */
  predicate HasClass(peers: Peers, ip: string)
  {
    DownloadLimited(peers, ip) && |Below(DownloadPeers(peers), ip)| < 65181
  }

  /** An upload-limited address with fewer than 65526 others before it. */
  predicate HasPolicer(peers: Peers, ip: string)
  {
    UploadLimited(peers, ip) && |Below(UploadPeers(peers), ip)| < 65526
  }

  /** Packets to `ip`: its own cap, the open default class, or no shaping when nobody is limited. */
  function DownloadMeant(peers: Peers, ip: string): Tc.Download
  {
    if DownloadPeers(peers) == {} then Tc.Unshaped
    else if HasClass(peers, ip) then
      var pl := peers[ip];
      var bits := Rates.BitsPerSecond(pl.download);
      Tc.Shaped(bits, bits,
                if pl.burstDownload > 0
                then Some(Rates.BurstBytesPreferringConfig(pl.burstDownload, pl.download)) else None)
    else Tc.Shaped(LINE_RATE, LINE_RATE, None)
  }

  /** Packets from `ip`: its own policer, or none. */
  function UploadMeant(peers: Peers, ip: string): Tc.Upload
  {
    if HasPolicer(peers, ip) then
      Tc.Policed(Rates.BitsPerSecond(peers[ip].upload),
                 Rates.BurstBytesPreferringConfig(peers[ip].burstUpload, peers[ip].upload))
    else Tc.Unpoliced
  }

  lemma {:induction false} DownloadKeysOf(keys: seq<string>, peers: Peers)
    requires Sorting.Sorted(keys)
    ensures var ks := DownloadKeys(keys, peers);
            Sorting.Sorted(ks) && forall k :: k in ks <==> k in keys && DownloadLimited(peers, k)
  {
    if keys != [] {
      var front := keys[..|keys| - 1];
      DownloadKeysOf(front, peers);
      var ks := DownloadKeys(front, peers);
      assert forall i :: 0 <= i < |ks| ==> ks[i] in ks;
      assert keys == front + [keys[|keys| - 1]];
    }
  }

  lemma {:induction false} UploadKeysOf(keys: seq<string>, peers: Peers)
    requires Sorting.Sorted(keys)
    ensures var ks := UploadKeys(keys, peers);
            Sorting.Sorted(ks) && forall k :: k in ks <==> k in keys && UploadLimited(peers, k)
  {
    if keys != [] {
      var front := keys[..|keys| - 1];
      UploadKeysOf(front, peers);
      var ks := UploadKeys(front, peers);
      assert forall i :: 0 <= i < |ks| ==> ks[i] in ks;
      assert keys == front + [keys[|keys| - 1]];
    }
  }

  function Elements(ks: seq<string>): set<string>
  {
    set k | k in ks
  }

  /** In a sorted sequence the index of a member counts the members below it. */
  lemma {:induction false} RankIsIndex(ks: seq<string>, j: nat)
    requires Sorting.Sorted(ks) && j < |ks|
    ensures Below(Elements(ks), ks[j]) == Elements(ks[..j]) && |Elements(ks[..j])| == j
  {
    CountSorted(ks[..j]);
    forall k ensures k in Below(Elements(ks), ks[j]) <==> k in Elements(ks[..j]) {
      if k in ks {
        var i :| 0 <= i < |ks| && ks[i] == k;
        Sorting.LessAsymmetric(k, ks[j]);
        if i < j {
          assert ks[..j][i] == k;
        }
      }
    }
  }

  lemma {:induction false} CountSorted(ks: seq<string>)
    requires Sorting.Sorted(ks)
    ensures |Elements(ks)| == |ks|
  {
    if ks != [] {
      var n := |ks| - 1;
      CountSorted(ks[..n]);
      Sorting.SortedIsDistinct(ks);
      assert Elements(ks) == Elements(ks[..n]) + {ks[n]};
    }
  }

  lemma TakeByRank(ks: seq<string>, n: nat, ip: string)
    requires Sorting.Sorted(ks)
    ensures ip in Take(n, ks) <==> ip in ks && |Below(Elements(ks), ip)| < n
  {
    if ip in ks {
      var j :| 0 <= j < |ks| && ks[j] == ip;
      RankIsIndex(ks, j);
      Sorting.SortedIsDistinct(ks);
    }
  }

  lemma ClassedIsHasClass(peers: Peers, ip: string)
    ensures Sorting.Sorted(Classed(peers))
    ensures ip in Classed(peers) <==> HasClass(peers, ip)
    ensures Classed(peers) == [] <==> DownloadPeers(peers) == {}
  {
    var keys := Sorting.SortedKeys(peers.Keys);
    var ks := DownloadKeys(keys, peers);
    DownloadKeysOf(keys, peers);
    TakeByRank(ks, MAX_CLASSES, ip);
    assert Elements(ks) == DownloadPeers(peers);
    assert ks != [] ==> ks[0] in Elements(ks);
  }

  lemma PolicedIsUploadLimited(peers: Peers, ip: string)
    ensures Sorting.Sorted(Take(MAX_POLICERS, Policed(peers)))
    ensures ip in Take(MAX_POLICERS, Policed(peers)) <==> HasPolicer(peers, ip)
    ensures |Policed(peers)| == |UploadPeers(peers)|
  {
    var keys := Sorting.SortedKeys(peers.Keys);
    var ks := UploadKeys(keys, peers);
    UploadKeysOf(keys, peers);
    TakeByRank(ks, MAX_POLICERS, ip);
    assert Elements(ks) == UploadPeers(peers);
    CountSorted(ks);
  }

  /** Filters for distinct addresses: the one for `dst`, when there is one. */
  lemma {:induction false} MatchFinds(filters: seq<Tc.Filter>, dst: string)
    requires forall i, j :: 0 <= i < j < |filters| ==> filters[i].dst != filters[j].dst
    ensures var m := Tc.Match(filters, dst);
            if m.None? then forall i :: 0 <= i < |filters| ==> filters[i].dst != dst
            else m.value in filters && m.value.dst == dst
  {
    if filters != [] {
      MatchFinds(filters[..|filters| - 1], dst);
    }
  }

  lemma {:induction false} MatchPolicerFinds(policers: seq<Tc.Policer>, src: string)
    requires forall i, j :: 0 <= i < j < |policers| ==> policers[i].src != policers[j].src
    ensures var m := Tc.MatchPolicer(policers, src);
            if m.None? then forall i :: 0 <= i < |policers| ==> policers[i].src != src
            else m.value in policers && m.value.src == src
  {
    if policers != [] {
      MatchPolicerFinds(policers[..|policers| - 1], src);
    }
  }

  lemma DownloadsAsMeant(peers: Peers, ip: string)
    ensures Tc.DownloadOf(StateFor(peers), ip) == DownloadMeant(peers, ip)
  {
    ClassedIsHasClass(peers, ip);
    if Classed(peers) != [] {
      FilterFound(peers, Classed(peers), ip);
    }
  }

  /** The filter that packets to `ip` meet leads to the class of that address. */
  lemma FilterFound(peers: Peers, ks: seq<string>, ip: string)
    requires Limited(peers, ks) && Sorting.Sorted(ks)
    ensures var q := HtbFor(peers, ks);
            var m := Tc.Match(q.filters, ip);
            if ip in ks then m.Some? && m.value.flow in q.classes
                             && q.classes[m.value.flow] == PeerClass(Lookup(peers, ip))
            else m.None?
  {
    var q := HtbFor(peers, ks);
    Sorting.SortedIsDistinct(ks);
    MatchFinds(q.filters, ip);
    if ip in ks {
      var j :| 0 <= j < |ks| && ks[j] == ip;
      assert q.filters[j].dst == ip;
      assert Tc.Match(q.filters, ip) == Some(q.filters[j]);
    }
  }

  lemma PolicerFound(peers: Peers, ks: seq<string>, ip: string)
    requires Capped(peers, ks) && Sorting.Sorted(ks)
    ensures var m := Tc.MatchPolicer(PolicersFor(peers, ks), ip);
            if ip in ks then m.Some? && m.value.src == ip
                             && m.value.rate == Rates.BitsPerSecond(Lookup(peers, ip).upload)
                             && m.value.burst == Rates.BurstBytesPreferringConfig(Lookup(peers, ip).burstUpload,
                                                                                  Lookup(peers, ip).upload)
            else m.None?
  {
    var ps := PolicersFor(peers, ks);
    Sorting.SortedIsDistinct(ks);
    MatchPolicerFinds(ps, ip);
    if ip in ks {
      var j :| 0 <= j < |ks| && ks[j] == ip;
      assert ps[j].src == ip;
    }
  }

  lemma UploadsAsMeant(peers: Peers, ip: string)
    ensures Tc.UploadOf(StateFor(peers), ip) == UploadMeant(peers, ip)
  {
    PolicedIsUploadLimited(peers, ip);
    if Policed(peers) != [] {
      PolicerFound(peers, Take(MAX_POLICERS, Policed(peers)), ip);
    }
  }

  // ---------- The same in numbers ----------

  /** A capped address gets the nearest rate, and the burst of the smaller of the two settings. */
  lemma CapsInNumbers(peers: Peers, ip: string)
    ensures HasPolicer(peers, ip) ==>
              var pl, u := peers[ip], UploadMeant(peers, ip);
              u.Policed? && Rates.IsRate(u.rate, pl.upload)
              && Rates.IsBurst(u.burst, Rates.Smaller(pl.burstUpload, pl.upload))
    ensures HasClass(peers, ip) ==>
              var pl, d := peers[ip], DownloadMeant(peers, ip);
              d.Shaped? && Rates.IsRate(d.rate, pl.download) && d.ceil == d.rate
              && (d.burst.Some? <==> pl.burstDownload > 0)
              && (d.burst.Some? ==> Rates.IsBurst(d.burst.value, Rates.Smaller(pl.burstDownload, pl.download)))
    ensures !HasClass(peers, ip) && DownloadPeers(peers) != {} ==>
              DownloadMeant(peers, ip) == Tc.Shaped(100_000_000_000, 100_000_000_000, None)
  {
    if HasPolicer(peers, ip) {
      Rates.RateIsNearest(peers[ip].upload);
      Rates.BurstFollowsSmallerSetting(peers[ip].burstUpload, peers[ip].upload);
    }
    if HasClass(peers, ip) {
      Rates.RateIsNearest(peers[ip].download);
      Rates.BurstFollowsSmallerSetting(peers[ip].burstDownload, peers[ip].download);
      assert DownloadPeers(peers) != {} by {
        assert ip in DownloadPeers(peers);
      }
    }
  }

  /** All classes hang under one class of 100 Gbit/s; the default class borrows after those of the peers. */
  lemma ClassTree(peers: Peers, minor: nat)
    requires StateFor(peers).root.Some? && minor in StateFor(peers).root.value.classes
    ensures var q := StateFor(peers).root.value;
            && 1 in q.classes && q.fallback in q.classes && q.fallback != 1
            && q.classes[1].parent == 0 && q.classes[1].ceil == 100_000_000_000
            && (minor != 1 ==> q.classes[minor].parent == 1 && q.classes[minor].ceil <= q.classes[minor].rate)
            && (minor != 1 ==> q.classes[minor].prio == if minor == q.fallback then 7 else 5)
  {
    var ks := Classed(peers);
    var q := HtbFor(peers, ks);
    if minor != 1 && minor != 0x30 {
      assert q.classes[FIRST_MINOR + (minor - FIRST_MINOR)] == PeerClass(Lookup(peers, ks[minor - FIRST_MINOR]));
    }
  }

  // ---------- When two maps compile to the same state ----------

  /** The class that an address gets. */
  function ClassOf(peers: Peers, ip: string): Option<Tc.Class>
  {
    if HasClass(peers, ip) then Some(PeerClass(peers[ip])) else None
  }

  /** The rate and burst that an address is policed at. */
  function PolicingOf(peers: Peers, ip: string): Option<(nat, nat)>
  {
    if HasPolicer(peers, ip) then
      Some((Rates.BitsPerSecond(peers[ip].upload),
            Rates.BurstBytesPreferringConfig(peers[ip].burstUpload, peers[ip].upload)))
    else None
  }

  predicate SameTreatment(m: Peers, n: Peers, ip: string)
  {
    ClassOf(m, ip) == ClassOf(n, ip) && PolicingOf(m, ip) == PolicingOf(n, ip)
  }

  lemma {:induction false} SameHtb(m: Peers, n: Peers, ks: seq<string>)
    requires Limited(m, ks) && Limited(n, ks)
    requires forall i :: 0 <= i < |ks| ==> PeerClass(Lookup(m, ks[i])) == PeerClass(Lookup(n, ks[i]))
    ensures HtbFor(m, ks) == HtbFor(n, ks)
  {
    if ks != [] {
      SameHtb(m, n, ks[..|ks| - 1]);
    }
  }

  lemma SameRoot(m: Peers, n: Peers)
    requires forall ip :: SameTreatment(m, n, ip)
    ensures StateFor(m).root == StateFor(n).root
  {
    var ks := Classed(m);
    ClassedIsHasClass(m, "");
    ClassedIsHasClass(n, "");
    forall ip ensures ip in ks <==> ip in Classed(n) {
      ClassedIsHasClass(m, ip);
      ClassedIsHasClass(n, ip);
      assert SameTreatment(m, n, ip);
    }
    Sorting.SortedIsUnique(ks, Classed(n));
    forall i | 0 <= i < |ks| ensures PeerClass(Lookup(m, ks[i])) == PeerClass(Lookup(n, ks[i])) {
      ClassedIsHasClass(m, ks[i]);
      assert SameTreatment(m, n, ks[i]);
    }
    SameHtb(m, n, ks);
  }

  function Taken(peers: Peers): (ks: seq<string>)
    ensures Capped(peers, ks)
  {
    Take(MAX_POLICERS, Policed(peers))
  }

  lemma TakenHolds(peers: Peers, ip: string)
    ensures Sorting.Sorted(Taken(peers))
    ensures ip in Taken(peers) <==> HasPolicer(peers, ip)
    ensures Taken(peers) == [] <==> Policed(peers) == []
  {
    PolicedIsUploadLimited(peers, ip);
  }

  /** The policers of `ks` depend on nothing but the rates and bursts. */
  lemma SamePolicers(m: Peers, n: Peers, ks: seq<string>)
    requires Capped(m, ks) && Capped(n, ks)
    requires forall j: nat :: j < |ks| ==> PeerPolicer(FIRST_UPLOAD_PRIO + j, ks[j], Lookup(m, ks[j]))
                                           == PeerPolicer(FIRST_UPLOAD_PRIO + j, ks[j], Lookup(n, ks[j]))
    ensures PolicersFor(m, ks) == PolicersFor(n, ks)
  {
  }

  lemma SameTaken(m: Peers, n: Peers)
    requires forall ip :: SameTreatment(m, n, ip)
    ensures Taken(m) == Taken(n)
  {
    TakenHolds(m, "");
    TakenHolds(n, "");
    forall ip ensures ip in Taken(m) <==> ip in Taken(n) {
      TakenHolds(m, ip);
      TakenHolds(n, ip);
      assert SameTreatment(m, n, ip);
    }
    Sorting.SortedIsUnique(Taken(m), Taken(n));
  }

  lemma SameIngressState(m: Peers, n: Peers)
    requires forall ip :: SameTreatment(m, n, ip)
    ensures StateFor(m).ingress == StateFor(n).ingress
  {
    var ks := Taken(m);
    SameTaken(m, n);
    TakenHolds(m, "");
    TakenHolds(n, "");
    forall j: nat | j < |ks|
      ensures PeerPolicer(FIRST_UPLOAD_PRIO + j, ks[j], Lookup(m, ks[j]))
           == PeerPolicer(FIRST_UPLOAD_PRIO + j, ks[j], Lookup(n, ks[j]))
    {
      TakenHolds(m, ks[j]);
      TakenHolds(n, ks[j]);
      assert SameTreatment(m, n, ks[j]);
    }
    SamePolicers(m, n, ks);
  }

  lemma ClassFromState(m: Peers, n: Peers, ip: string)
    requires StateFor(m).root == StateFor(n).root
    ensures ClassOf(m, ip) == ClassOf(n, ip)
  {
    var ks, ls := Classed(m), Classed(n);
    ClassedIsHasClass(m, ip);
    ClassedIsHasClass(n, ip);
    if ks != [] {
      var q := HtbFor(m, ks);
      assert q == HtbFor(n, ls);
      assert |ks| == |ls|;
      forall j | 0 <= j < |ks| ensures ks[j] == ls[j] {
        assert q.filters[j] == Tc.Filter(FIRST_DOWNLOAD_PRIO + j, ks[j], FIRST_MINOR + j);
      }
      assert ks == ls;
      if ip in ks {
        var j :| 0 <= j < |ks| && ks[j] == ip;
        assert q.classes[FIRST_MINOR + j] == PeerClass(Lookup(m, ks[j]));
        assert q.classes[FIRST_MINOR + j] == PeerClass(Lookup(n, ls[j]));
      }
    }
  }

  lemma PolicingFromState(m: Peers, n: Peers, ip: string)
    requires StateFor(m).ingress == StateFor(n).ingress
    ensures PolicingOf(m, ip) == PolicingOf(n, ip)
  {
    var ks, ls := Taken(m), Taken(n);
    TakenHolds(m, ip);
    TakenHolds(n, ip);
    if Policed(m) != [] {
      var ps := PolicersFor(m, ks);
      assert ps == PolicersFor(n, ls) && |ks| == |ls|;
      forall j | 0 <= j < |ks| ensures ks[j] == ls[j] {
        assert ps[j].src == ks[j];
      }
      assert ks == ls;
      if ip in ks {
        var j :| 0 <= j < |ks| && ks[j] == ip;
        assert ps[j] == PeerPolicer(FIRST_UPLOAD_PRIO + j, ks[j], Lookup(m, ks[j]));
        assert ps[j] == PeerPolicer(FIRST_UPLOAD_PRIO + j, ls[j], Lookup(n, ls[j]));
      }
    }
  }

  /** Two maps compile to the same state exactly when they treat every address alike. */
  lemma SameState(m: Peers, n: Peers)
    ensures StateFor(m) == StateFor(n) <==> forall ip :: SameTreatment(m, n, ip)
  {
    if StateFor(m) == StateFor(n) {
      forall ip ensures SameTreatment(m, n, ip) {
        ClassFromState(m, n, ip);
        PolicingFromState(m, n, ip);
      }
    }
    if forall ip :: SameTreatment(m, n, ip) {
      SameRoot(m, n);
      SameIngressState(m, n);
    }
  }

  /** Every address is treated as the map says, and the run succeeds unless there are too many policers. */
  ghost predicate MeansTheMap(out: Option<Tc.Outcome>, peers: Peers)
  {
    out.Some?
    && (forall ip :: Tc.DownloadOf(out.value.st, ip) == DownloadMeant(peers, ip))
    && (forall ip :: Tc.UploadOf(out.value.st, ip) == UploadMeant(peers, ip))
    && (out.value.ok <==> |UploadPeers(peers)| <= 65526)
  }

  lemma ReachedMeansTheMap(peers: Peers)
    ensures MeansTheMap(Some(Reached(peers)), peers)
  {
    forall ip ensures Tc.DownloadOf(StateFor(peers), ip) == DownloadMeant(peers, ip) {
      DownloadsAsMeant(peers, ip);
    }
    forall ip ensures Tc.UploadOf(StateFor(peers), ip) == UploadMeant(peers, ip) {
      UploadsAsMeant(peers, ip);
    }
    PolicedIsUploadLimited(peers, "");
  }

  /** An old policer that the map does not ask for. */
  function StrayPolicer(peers: Peers, ip: string): Tc.State
  {
    var meant := UploadMeant(peers, ip);
    var rate := if meant.Policed? then meant.rate + 1 else 1;
    Tc.State(Some(Tc.Htb(0, 0, map[], [])), Some([Tc.Policer(0, ip, rate, 0)]))
  }

  lemma StrayPolicerActs(peers: Peers, ip: string)
    ensures Tc.UploadOf(StrayPolicer(peers, ip), ip) != UploadMeant(peers, ip)
  {
    var ps := StrayPolicer(peers, ip).ingress.value;
    assert ps[..0] == [];
    assert Tc.MatchPolicer(ps, ip) == Some(ps[0]);
  }

  /**
   * Compiler correctness: from every earlier state the program leaves every address treated as the limit
   * map says, and it runs to the end exactly when at most 65526 addresses are upload-limited. This holds
   * if and only if the interface name is one shell word.
   */
  lemma PlanMeansTheMap(wgIface: string, peers: Peers)
    requires Text.Trim(wgIface) != ""
    ensures (forall st :: MeansTheMap(Tc.Run(Text.Trim(wgIface), st, PlanFor(wgIface, peers)), peers))
       <==> ShellQuote.ShellWord(Text.Trim(wgIface))
  {
    var iface := Text.Trim(wgIface);
    if ShellQuote.ShellWord(iface) {
      ReachedMeansTheMap(peers);
      forall st ensures MeansTheMap(Tc.Run(iface, st, PlanFor(wgIface, peers)), peers) {
        PlanReplaces(wgIface, peers, st);
      }
    } else {
      var st := StrayPolicer(peers, "");
      var out := Tc.Run(iface, st, PlanFor(wgIface, peers));
      PlanMisses(wgIface, peers, st);
      StrayPolicerActs(peers, "");
      assert out.Some? ==> out.value.st.ingress == st.ingress;
      SameIngress(st, out, "");
      assert !MeansTheMap(out, peers);
    }
  }

  lemma SameIngress(st: Tc.State, out: Option<Tc.Outcome>, ip: string)
    requires out.Some? ==> out.value.st.ingress == st.ingress
    ensures out.Some? ==> Tc.UploadOf(out.value.st, ip) == Tc.UploadOf(st, ip)
  {
  }

  lemma ReadBlankDelete(dev: string, what: string)
    requires what == "ingress" || what == "root"
    ensures Tc.Read(dev, DeleteArgv("", what)) == if dev == what then Tc.Unclear else Tc.Asks(Tc.Nothing)
  {
    Script.CommandWords();
    Script.NoName(what);
    ReadOneWord(dev, what);
  }

  lemma ReadOneWord(dev: string, what: string)
    ensures Tc.ReadScript(dev, Script.Runs(Script.COMMAND + [what], true))
         == if dev == what then Tc.Unclear else Tc.Asks(Tc.Nothing)
  {
    var ws := Script.COMMAND + [what];
    assert ws[..4] == Script.COMMAND && ws[4] == what && ws[5..] == [];
  }

  /**
   * Without an interface name the two scripts take the next word for the device: no device changes but one
   * that is called `ingress` or `root`.
   */
  lemma NoInterfaceNoChange(wgIface: string, peers: Peers, dev: string, st: Tc.State)
    requires Text.Trim(wgIface) == ""
    ensures Tc.Run(dev, st, PlanFor(wgIface, peers))
         == if dev == "ingress" || dev == "root" then None else Some(Tc.Outcome(st, true))
  {
    var a, b := DeleteArgv("", "ingress"), DeleteArgv("", "root");
    ReadBlankDelete(dev, "ingress");
    ReadBlankDelete(dev, "root");
    assert PlanFor(wgIface, peers) == [a, b];
    assert [a, b][1..] == [b] && [b][1..] == [];
    assert Tc.Run(dev, st, [b]) == if dev == "root" then None else Some(Tc.Outcome(st, true));
    assert "ingress"[0] != "root"[0];
  }

  /** A set larger than `n` has a member with `n` others before it. */
  lemma MemberOfRank(s: set<string>, n: nat) returns (ip: string)
    requires n < |s|
    ensures ip in s && |Below(s, ip)| == n
  {
    var ks := Sorting.SortedKeys(s);
    CountSorted(ks);
    assert (set k | k in ks) == s;
    RankIsIndex(ks, n);
    ip := ks[n];
  }

  /**
   * Every cap in the map is a cap on the wire exactly when the class numbers and the priorities go round:
   * at most 65181 download-limited and 65526 upload-limited addresses.
   */
  lemma EveryCapIsEnforced(peers: Peers)
    ensures (forall ip :: HasClass(peers, ip) <==> DownloadLimited(peers, ip))
       <==> |DownloadPeers(peers)| <= 65181
    ensures (forall ip :: HasPolicer(peers, ip) <==> UploadLimited(peers, ip))
       <==> |UploadPeers(peers)| <= 65526
  {
    forall ip | DownloadLimited(peers, ip) ensures |Below(DownloadPeers(peers), ip)| < |DownloadPeers(peers)| {
      FewerBelow(DownloadPeers(peers), ip);
    }
    forall ip | UploadLimited(peers, ip) ensures |Below(UploadPeers(peers), ip)| < |UploadPeers(peers)| {
      FewerBelow(UploadPeers(peers), ip);
    }
    if |DownloadPeers(peers)| > 65181 {
      var ip := MemberOfRank(DownloadPeers(peers), 65181);
      assert !HasClass(peers, ip) && DownloadLimited(peers, ip);
    }
    if |UploadPeers(peers)| > 65526 {
      var ip := MemberOfRank(UploadPeers(peers), 65526);
      assert !HasPolicer(peers, ip) && UploadLimited(peers, ip);
    }
  }

  lemma FewerBelow(s: set<string>, ip: string)
    requires ip in s
    ensures |Below(s, ip)| < |s|
  {
    Sorting.LessAsymmetric(ip, ip);
    SubsetIsSmaller(Below(s, ip), s - {ip});
  }

  lemma {:induction false} SubsetIsSmaller(a: set<string>, b: set<string>)
    requires a <= b
    ensures |a| <= |b|
  {
    if a != {} {
      var x :| x in a;
      SubsetIsSmaller(a - {x}, b - {x});
    }
  }
}
