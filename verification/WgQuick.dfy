/** The importer of `internal/wireguard/wgquick_parse.go`: a line-by-line section machine. */
module WgQuick {
  import opened Wrappers
  import Numbers
  import Text

  datatype Interface = Interface(privateKey: string, listenPort: int, address: string, dns: string, mtu: int,
                                 preUp: string, postUp: string, preDown: string, postDown: string,
                                 otherKV: map<string, string>)

  datatype Peer = Peer(username: string, publicKey: string, presharedKey: string, allowedIPs: string,
                       endpoint: string, otherKV: map<string, string>)

  datatype Config = Config(iface: Interface, peers: seq<Peer>)

  const NO_INTERFACE := Interface("", 0, "", "", 0, "", "", "", "", map[])

  function NewPeer(username: string): Peer
  {
    Peer(username, "", "", "", "", map[])
  }

  /** Sections other than the two known ones are read and ignored, like the lines before the first. */
  datatype Section = Ignored | InterfaceSection | PeerSection

  // ---------- Lines ----------

  function TrimPrefix(s: string, c: char): string
  {
    if s != "" && s[0] == c then s[1..] else s
  }

  /** The name in a comment of the form `# User: name`. */
  function ParseUserComment(line: string): Option<string>
  {
    var ln := Text.Trim(TrimPrefix(Text.Trim(TrimPrefix(line, '#')), ';'));
    if !("user:" <= Text.Lower(ln)) then None
    else
      var u := Text.Trim(ln[5..]);
      if u == "" then None else Some(u)
  }

  datatype KV = KV(key: string, value: string)

  function ParseKV(line: string): Option<KV>
  {
    match Text.IndexOf(line, '=')
    case None => None
    case Some(i) =>
      var key := Text.Trim(line[..i]);
      if key == "" then None else Some(KV(Text.Lower(key), Text.Trim(line[i + 1..])))
  }

  function AppendHookLine(existing: string, next: string): string
  {
    var n := Text.Trim(next);
    if n == "" then existing
    else if Text.Trim(existing) == "" then n
    else Text.Trim(existing) + "\n" + n
  }

  function ApplyInterfaceKV(intf: Interface, kv: KV): Interface
  {
    var val := Text.Trim(kv.value);
    match kv.key
    case "privatekey" => intf.(privateKey := val)
    case "listenport" =>
      (match Numbers.Atoi(val)
       case Some(n) => if 0 < n <= 65535 then intf.(listenPort := n) else intf
       case None => intf)
    case "address" => intf.(address := val)
    case "dns" => intf.(dns := val)
    case "mtu" =>
      (match Numbers.Atoi(val)
       case Some(n) => if n > 0 then intf.(mtu := n) else intf
       case None => intf)
    case "preup" => intf.(preUp := AppendHookLine(intf.preUp, kv.value))
    case "postup" => intf.(postUp := AppendHookLine(intf.postUp, kv.value))
    case "predown" => intf.(preDown := AppendHookLine(intf.preDown, kv.value))
    case "postdown" => intf.(postDown := AppendHookLine(intf.postDown, kv.value))
    case _ => intf.(otherKV := intf.otherKV[kv.key := kv.value])
  }

  function ApplyPeerKV(p: Peer, kv: KV): Peer
  {
    var val := Text.Trim(kv.value);
    match kv.key
    case "publickey" => p.(publicKey := val)
    case "presharedkey" => p.(presharedKey := val)
    case "allowedips" => p.(allowedIPs := val)
    case "endpoint" => p.(endpoint := val)
    case _ => p.(otherKV := p.otherKV[kv.key := kv.value])
  }

  /** What one line is, before the section is known. */
  datatype Line = Blank | Comment(user: Option<string>) | Header(name: string) | Setting(kv: KV) | Junk

  function ReadLine(raw: string): Line
  {
    var line := Text.Trim(raw);
    if line == "" then Blank
    else if line[0] == '#' || line[0] == ';' then Comment(ParseUserComment(line))
    else if line[0] == '[' && line[|line| - 1] == ']' then
      Header(Text.Lower(Text.Trim(line[1..|line| - 1])))
    else
      match ParseKV(line)
      case None => Junk
      case Some(kv) => Setting(kv)
  }

  // ---------- The section machine ----------

  datatype State = State(section: Section, pending: string, cur: Option<Peer>, iface: Interface, peers: seq<Peer>)

  const START := State(Ignored, "", None, NO_INTERFACE, [])

  function Flush(st: State): State
  {
    match st.cur
    case None => st
    case Some(p) => st.(peers := st.peers + [p], cur := None)
  }

  function Step(st: State, l: Line): State
  {
    match l
    case Blank => st
    case Junk => st
    case Comment(user) => if user.Some? then st.(pending := user.value) else st
    case Header(name) =>
      if name == "peer" then
        Flush(st).(section := PeerSection, cur := Some(NewPeer(Text.Trim(st.pending))), pending := "")
      else Flush(st).(section := if name == "interface" then InterfaceSection else Ignored)
    case Setting(kv) =>
      match st.section
      case Ignored => st
      case InterfaceSection => st.(iface := ApplyInterfaceKV(st.iface, kv))
      case PeerSection =>
        match st.cur
        case Some(p) => st.(cur := Some(ApplyPeerKV(p, kv)))
        case None => st.(cur := Some(ApplyPeerKV(NewPeer(Text.Trim(st.pending)), kv)), pending := "")
  }

  function Steps(st: State, lines: seq<string>): State
  {
    if lines == [] then st
    else Step(Steps(st, lines[..|lines| - 1]), ReadLine(lines[|lines| - 1]))
  }

  /** The end of the input: the last peer is kept, and a config without a private key is refused. */
  function Finish(st: State): Option<Config>
  {
    var out := Flush(st);
    if Text.Trim(out.iface.privateKey) == "" then None else Some(Config(out.iface, out.peers))
  }

  function Parse(text: string): Option<Config>
  {
    Finish(Steps(START, Text.ScanLines(text)))
  }

  lemma ParseFrom(text: string, lines: seq<string>, iface: Interface, peers: seq<Peer>)
    requires Text.ScanLines(text) == lines && Text.Trim(iface.privateKey) != ""
    requires Flush(Steps(START, lines)).iface == iface && Flush(Steps(START, lines)).peers == peers
    ensures Parse(text) == Some(Config(iface, peers))
  {
  }

  // ---------- The machine on lines already read ----------

  function Walk(st: State, ls: seq<Line>): State
    decreases |ls|
  {
    if ls == [] then st else Walk(Step(st, ls[0]), ls[1..])
  }

  ghost predicate ReadsAs(lines: seq<string>, ls: seq<Line>)
  {
    |lines| == |ls| && forall i :: 0 <= i < |ls| ==> ReadLine(lines[i]) == ls[i]
  }

  lemma {:induction false} WalkConcat(st: State, xs: seq<Line>, ys: seq<Line>)
    ensures Walk(st, xs + ys) == Walk(Walk(st, xs), ys)
    decreases |xs|
  {
    if xs == [] {
      assert xs + ys == ys;
    } else {
      assert (xs + ys)[1..] == xs[1..] + ys;
      WalkConcat(Step(st, xs[0]), xs[1..], ys);
    }
  }

  lemma {:induction false} StepsWalk(st: State, lines: seq<string>, ls: seq<Line>)
    requires ReadsAs(lines, ls)
    ensures Steps(st, lines) == Walk(st, ls)
    decreases |lines|
  {
    if lines != [] {
      var n := |lines| - 1;
      StepsWalk(st, lines[..n], ls[..n]);
      WalkConcat(st, ls[..n], [ls[n]]);
      assert ls == ls[..n] + [ls[n]];
      WalkOne(Walk(st, ls[..n]), ls[n]);
    }
  }

  lemma WalkOne(st: State, a: Line)
    ensures Walk(st, [a]) == Step(st, a)
  {
    assert [a][1..] == [];
  }

  lemma WalkThree(st: State, a: Line, b: Line, c: Line)
    ensures Walk(st, [a, b, c]) == Step(Step(Step(st, a), b), c)
  {
    assert [a, b, c][1..] == [b, c] && [b, c][1..] == [c];
    assert Walk(Step(st, a), [b, c]) == Walk(Step(Step(st, a), b), [c]);
    WalkOne(Step(Step(st, a), b), c);
  }

  lemma ReadsOne(line: string, l: Line)
    requires ReadLine(line) == l
    ensures ReadsAs([line], [l])
  {
  }

  lemma ReadsThree(a: string, b: string, c: string, la: Line, lb: Line, lc: Line)
    requires ReadLine(a) == la && ReadLine(b) == lb && ReadLine(c) == lc
    ensures ReadsAs([a, b, c], [la, lb, lc])
  {
  }

  lemma ReadsFour(a: string, b: string, c: string, d: string, la: Line, lb: Line, lc: Line, ld: Line)
    requires ReadLine(a) == la && ReadLine(b) == lb && ReadLine(c) == lc && ReadLine(d) == ld
    ensures ReadsAs([a, b, c, d], [la, lb, lc, ld])
  {
  }

  lemma ReadsAsConcat(a: seq<string>, b: seq<string>, la: seq<Line>, lb: seq<Line>)
    requires ReadsAs(a, la) && ReadsAs(b, lb)
    ensures ReadsAs(a + b, la + lb)
  {
    forall i | 0 <= i < |a + b| ensures ReadLine((a + b)[i]) == (la + lb)[i] {
      if i < |a| {
        assert (a + b)[i] == a[i] && (la + lb)[i] == la[i];
      } else {
        assert (a + b)[i] == b[i - |a|] && (la + lb)[i] == lb[i - |a|];
      }
    }
  }

  lemma ReadsAsFive(a: seq<string>, b: seq<string>, c: seq<string>, d: seq<string>, e: seq<string>,
                    la: seq<Line>, lb: seq<Line>, lc: seq<Line>, ld: seq<Line>, le: seq<Line>)
    requires ReadsAs(a, la) && ReadsAs(b, lb) && ReadsAs(c, lc) && ReadsAs(d, ld) && ReadsAs(e, le)
    ensures ReadsAs(a + b + c + d + e, la + lb + lc + ld + le)
  {
    ReadsAsConcat(a, b, la, lb);
    ReadsAsConcat(a + b, c, la + lb, lc);
    ReadsAsConcat(a + b + c, d, la + lb + lc, ld);
    ReadsAsConcat(a + b + c + d, e, la + lb + lc + ld, le);
  }

  // ---------- The scanner loop ----------

  /** The variables of `ParseWGQuickConfig`. */
  class Parser {
    var section: Section
    var pendingUser: string
    var curPeer: Option<Peer>
    var iface: Interface
    var peers: seq<Peer>

    constructor ()
      ensures Value() == START
    {
      section, pendingUser, curPeer, iface, peers := Ignored, "", None, NO_INTERFACE, [];
    }

    ghost function Value(): State
      reads this
    {
      State(section, pendingUser, curPeer, iface, peers)
    }

    method FlushPeer()
      modifies this
      ensures Value() == Flush(old(Value()))
    {
      if curPeer.Some? {
        peers := peers + [curPeer.value];
        curPeer := None;
      }
    }

    method BeginSection(name: string)
      modifies this
      ensures Value() == Step(old(Value()), Header(name))
    {
      FlushPeer();
      if name == "peer" {
        curPeer := Some(NewPeer(Text.Trim(pendingUser)));
        pendingUser := "";
        section := PeerSection;
      } else if name == "interface" {
        section := InterfaceSection;
      } else {
        section := Ignored;
      }
    }

    method Set(kv: KV)
      modifies this
      ensures Value() == Step(old(Value()), Setting(kv))
    {
      match section {
        case InterfaceSection =>
          iface := ApplyInterfaceKV(iface, kv);
        case PeerSection =>
          if curPeer.None? {
            curPeer := Some(NewPeer(Text.Trim(pendingUser)));
            pendingUser := "";
          }
          curPeer := Some(ApplyPeerKV(curPeer.value, kv));
        case Ignored =>
      }
    }

    method ScanLine(raw: string)
      modifies this
      ensures Value() == Step(old(Value()), ReadLine(raw))
    {
      match ReadLine(raw) {
        case Comment(user) =>
          if user.Some? {
            pendingUser := user.value;
          }
        case Header(name) => BeginSection(name);
        case Setting(kv) => Set(kv);
        case _ =>
      }
    }
  }

  method ParseWGQuickConfig(text: string) returns (out: Option<Config>)
    ensures out == Parse(text)
  {
    var p := new Parser();
    var lines := Text.ScanLines(text);
    for i := 0 to |lines|
      invariant fresh(p)
      invariant p.Value() == Steps(START, lines[..i])
    {
      assert lines[..i + 1][..i] == lines[..i];
      p.ScanLine(lines[i]);
    }
    assert lines[..|lines|] == lines;
    p.FlushPeer();
    if Text.Trim(p.iface.privateKey) == "" {
      out := None;
    } else {
      out := Some(Config(p.iface, p.peers));
    }
  }
}
