/**
 * A small interpreter for the `tc` command lines that the planner emits, for one device.
 * It reads argument vectors, as the kernel tools would, and steps a traffic-control state.
 */
module Tc {
  import opened Wrappers
  import Numbers
  import Script
  import Text

  type Argv = seq<string>

  // ---------- State ----------

  /** An HTB class; `parent` and the class's own key are minor numbers, 0 being the qdisc itself. */
  datatype Class = Class(parent: nat, rate: nat, ceil: nat, prio: nat, burst: Option<nat>)

  /** A u32 filter sending packets for address `dst` to the class with minor number `flow`. */
  datatype Filter = Filter(prio: nat, dst: string, flow: nat)

  datatype Htb = Htb(major: nat, fallback: nat, classes: map<nat, Class>, filters: seq<Filter>)

  /** A u32 filter policing packets from address `src`. */
  datatype Policer = Policer(prio: nat, src: string, rate: nat, burst: nat)

  datatype State = State(root: Option<Htb>, ingress: Option<seq<Policer>>)

  const EMPTY := State(None, None)

  /** Filter priorities are 16 bits wide. */
  const MAX_PRIO := 0xffff

  // ---------- Typed commands ----------

  datatype Handle = Handle(major: nat, minor: nat)

  datatype Command =
    | Nothing
    | DeleteRoot
    | DeleteIngress
    | AddRoot(handle: Handle, fallback: nat)
    | AddClass(parent: Handle, id: Handle, spec: Class)
    | AddFilter(parent: Handle, filter: Filter, flowMajor: nat)
    | AddIngress
    | AddPolicer(policer: Policer)

  /** One command on the state; None when the tool exits with an error. */
  function Step(st: State, c: Command): Option<State>
  {
    match c
    case Nothing => Some(st)
    case DeleteRoot => Some(st.(root := None))
    case DeleteIngress => Some(st.(ingress := None))
    case AddRoot(handle, fallback) =>
      if st.root.Some? then None
      else Some(st.(root := Some(Htb(handle.major, fallback, map[], []))))
    case AddClass(parent, id, spec) =>
      if st.root.None? then None else
      var q := st.root.value;
      if parent.major != q.major || id.major != q.major then None
      else if id.minor == 0 || id.minor > 0xffff || id.minor in q.classes then None
      else if parent.minor != 0 && parent.minor !in q.classes then None
      else Some(st.(root := Some(q.(classes := q.classes[id.minor := spec]))))
    case AddFilter(parent, filter, flowMajor) =>
      if st.root.None? then None else
      var q := st.root.value;
      if parent != Handle(q.major, 0) || flowMajor != q.major || filter.prio > MAX_PRIO then None
      else Some(st.(root := Some(q.(filters := q.filters + [filter]))))
    case AddIngress =>
      if st.ingress.Some? then None else Some(st.(ingress := Some([])))
    case AddPolicer(policer) =>
      if st.ingress.None? || policer.prio > MAX_PRIO then None
      else Some(st.(ingress := Some(st.ingress.value + [policer])))
  }

  // ---------- Reading argument vectors ----------

  function ReadHandle(s: string): Option<Handle>
  {
    match Text.IndexOf(s, ':')
    case None => None
    case Some(i) =>
      var major, minor := Numbers.Parse(s[..i], 16), Numbers.Parse(s[i + 1..], 16);
      if major.None? then None
      else if s[i + 1..] == "" then Some(Handle(major.value, 0))
      else if minor.None? then None
      else Some(Handle(major.value, minor.value))
  }

  function Before(s: string, suffix: string): Option<string>
  {
    if |s| >= |suffix| && s[|s| - |suffix|..] == suffix then Some(s[..|s| - |suffix|]) else None
  }

  /** A rate literal in bits per second, with the unit `bit` or `mbit`. */
  function ReadRate(s: string): Option<nat>
  {
    match Before(s, "mbit")
    case Some(n) =>
      (match Numbers.Parse(n, 10)
       case Some(v) => Some(v * 1000000)
       case None => None)
    case None =>
      match Before(s, "bit")
      case Some(n) => Numbers.Parse(n, 10)
      case None => None
  }

  /** The texts of one vector that vary from command to command. */
  datatype Texts =
    | RootTexts(handle: string, fallback: string)
    | IngressTexts
    | ClassTexts(parent: string, id: string, rate: string, ceil: string, rank: Option<string>, bytes: Option<string>)
    | FilterTexts(parent: string, prio: string, dst: string, flow: string)
    | PolicerTexts(prio: string, src: string, rate: string, burst: string)

  function QdiscTexts(a: Argv): Option<Texts>
    requires |a| >= 8
  {
    if |a| == 8 && a[5] == "handle" && a[6] == "ffff:" && a[7] == "ingress" then Some(IngressTexts)
    else if |a| == 11 && a[5] == "root" && a[6] == "handle" && a[8] == "htb" && a[9] == "default" then
      Some(RootTexts(a[7], a[10]))
    else None
  }

  function TextsOfClass(a: Argv): Option<Texts>
  {
    if |a| < 14 || a[5] != "parent" || a[7] != "classid" then None
    else if a[9] != "htb" || a[10] != "rate" || a[12] != "ceil" then None
    else if |a| == 14 then Some(ClassTexts(a[6], a[8], a[11], a[13], None, None))
    else if |a| == 16 && a[14] == "prio" then Some(ClassTexts(a[6], a[8], a[11], a[13], Some(a[15]), None))
    else if |a| == 20 && a[14] == "prio" && a[16] == "burst" && a[18] == "cburst" && a[17] == a[19] then
      Some(ClassTexts(a[6], a[8], a[11], a[13], Some(a[15]), Some(a[17])))
    else None
  }

  /** `protocol ip parent .. prio .. u32 match ip dst .. flowid ..` */
  predicate IsFilter(a: Argv)
  {
    |a| == 18 && a[5] == "protocol" && a[6] == "ip" && a[7] == "parent" && a[9] == "prio"
    && a[11] == "u32" && a[12] == "match" && a[13] == "ip" && a[14] == "dst" && a[16] == "flowid"
  }

  /** `parent ffff: protocol ip prio .. u32 match ip src .. police rate .. burst .. mtu 1500 conform-exceed drop` */
  predicate IsPolicer(a: Argv)
  {
    |a| == 25 && a[5] == "parent" && a[6] == "ffff:" && a[7] == "protocol" && a[8] == "ip" && a[9] == "prio"
    && a[11] == "u32" && a[12] == "match" && a[13] == "ip" && a[14] == "src" && a[16] == "police"
    && a[17] == "rate" && a[19] == "burst" && a[21] == "mtu" && a[22] == "1500"
    && a[23] == "conform-exceed" && a[24] == "drop"
  }

  function TextsOfFilter(a: Argv): Option<Texts>
  {
    if IsFilter(a) then Some(FilterTexts(a[8], a[10], a[15], a[17]))
    else if IsPolicer(a) then Some(PolicerTexts(a[10], a[15], a[18], a[20]))
    else None
  }

  /** A `tc .. add dev ..` vector for device `dev`. */
  function ReadTexts(dev: string, a: Argv): Option<Texts>
  {
    if |a| < 8 || a[0] != "tc" || a[2] != "add" || a[3] != "dev" || a[4] != dev then None
    else if a[1] == "qdisc" then QdiscTexts(a)
    else if a[1] == "class" then TextsOfClass(a)
    else if a[1] == "filter" then TextsOfFilter(a)
    else None
  }

  /** An optional numeral: None when it is there and cannot be read. */
  function ReadOptional(s: Option<string>): Option<Option<nat>>
  {
    match s
    case None => Some(None)
    case Some(t) =>
      match Numbers.Parse(t, 10)
      case None => None
      case Some(n) => Some(Some(n))
  }

  /** The command that the texts denote. */
  function Denoted(t: Texts): Option<Command>
  {
    match t
    case RootTexts(handle, fallback) =>
      (match (ReadHandle(handle), Numbers.Parse(fallback, 16))
       case (Some(h), Some(d)) => Some(AddRoot(h, d))
       case _ => None)
    case IngressTexts => Some(AddIngress)
    case ClassTexts(parent, id, rate, ceil, rank, bytes) =>
      (match (ReadHandle(parent), ReadHandle(id), ReadRate(rate), ReadRate(ceil), ReadOptional(rank),
              ReadOptional(bytes))
       case (Some(p), Some(i), Some(r), Some(c), Some(n), Some(b)) =>
         Some(AddClass(p, i, Class(p.minor, r, c, if n.Some? then n.value else 0, b)))
       case _ => None)
    case FilterTexts(parent, prio, dst, flow) =>
      (match (ReadHandle(parent), Numbers.Parse(prio, 10), Before(dst, "/32"), ReadHandle(flow))
       case (Some(p), Some(n), Some(d), Some(f)) => Some(AddFilter(p, Filter(n, d, f.minor), f.major))
       case _ => None)
    case PolicerTexts(prio, src, rate, burst) =>
      match (Numbers.Parse(prio, 10), Before(src, "/32"), ReadRate(rate), Numbers.Parse(burst, 10))
      case (Some(n), Some(s), Some(r), Some(b)) => Some(AddPolicer(Policer(n, s, r, b)))
      case _ => None
  }

  /** Refused: the tool exits with an error. Unclear: what happens to the device cannot be told. */
  datatype Reading = Asks(command: Command) | Refused | Unclear

  function Asked(c: Option<Command>): Reading
  {
    match c
    case None => Refused
    case Some(command) => Asks(command)
  }

  /**
   * What a script asks of device `dev`. A delete on another device leaves this one alone, and one without
   * a device is refused; nothing is said of other programs.
   */
  function ReadScript(dev: string, script: Script.Script): Reading
  {
    match script
    case Unclear => Unclear
    case Runs(ws, ignoring) =>
      if |ws| < 4 || ws[..4] != Script.COMMAND then Unclear
      else if |ws| == 4 then (if ignoring then Asks(Nothing) else Refused)
      else if !ignoring then Unclear
      else if ws[4] != dev then Asks(Nothing)
      else if ws[5..] == ["ingress"] then Asks(DeleteIngress)
      else if ws[5..] == ["root"] then Asks(DeleteRoot)
      else Unclear
  }

  /** What one argument vector asks of device `dev`. */
  function Read(dev: string, a: Argv): Reading
  {
    if |a| == 3 && a[0] == "sh" && a[1] == "-c" then ReadScript(dev, Script.ReadScript(a[2]))
    else
      match ReadTexts(dev, a)
      case None => Refused
      case Some(t) => Asked(Denoted(t))
  }

  lemma ReadsTexts(dev: string, a: Argv, t: Texts)
    requires |a| != 3 && ReadTexts(dev, a) == Some(t)
    ensures Read(dev, a) == Asked(Denoted(t))
  {
  }

  /** The effect of one argument vector. */
  datatype Effect = Done(st: State) | Failed | Unknown

  /** One argument vector on the state; an empty vector is skipped. */
  function Exec(dev: string, st: State, a: Argv): Effect
  {
    if a == [] then Done(st)
    else match Read(dev, a)
      case Refused => Failed
      case Unclear => Unknown
      case Asks(c) =>
        match Step(st, c)
        case None => Failed
        case Some(next) => Done(next)
  }

  // ---------- Running a list of commands, stopping at the first failure ----------

  datatype Outcome = Outcome(st: State, ok: bool)

  /** None when a command is reached whose effect cannot be told. */
  function Run(dev: string, st: State, cmds: seq<Argv>): Option<Outcome>
    decreases |cmds|
  {
    if cmds == [] then Some(Outcome(st, true))
    else match Exec(dev, st, cmds[0])
      case Failed => Some(Outcome(st, false))
      case Unknown => None
      case Done(next) => Run(dev, next, cmds[1..])
  }

  // ---------- The same run on typed commands ----------

  function RunCommandsFrom(st: State, cs: seq<Command>): Outcome
    decreases |cs|
  {
    if cs == [] then Outcome(st, true)
    else match Step(st, cs[0])
      case None => Outcome(st, false)
      case Some(next) => RunCommandsFrom(next, cs[1..])
  }

  /** Each argument vector reads as the command at its position. */
  ghost predicate Reads(dev: string, cmds: seq<Argv>, cs: seq<Command>)
  {
    |cmds| == |cs| && forall i :: 0 <= i < |cmds| ==> cmds[i] != [] && Read(dev, cmds[i]) == Asks(cs[i])
  }

  lemma {:induction false} RunReads(dev: string, st: State, cmds: seq<Argv>, cs: seq<Command>)
    requires Reads(dev, cmds, cs)
    ensures Run(dev, st, cmds) == Some(RunCommandsFrom(st, cs))
    decreases |cmds|
  {
    if cmds != [] {
      match Step(st, cs[0]) {
        case None =>
        case Some(next) => RunReads(dev, next, cmds[1..], cs[1..]);
      }
    }
  }

  lemma ReadsConcat(dev: string, xs: seq<Argv>, ys: seq<Argv>, cs: seq<Command>, ds: seq<Command>)
    requires Reads(dev, xs, cs) && Reads(dev, ys, ds)
    ensures Reads(dev, xs + ys, cs + ds)
  {
  }

  lemma ReadsThree(dev: string, a: Argv, b: Argv, c: Argv, cs: seq<Command>)
    requires |cs| == 3 && a != [] && b != [] && c != []
    requires Read(dev, a) == Asks(cs[0]) && Read(dev, b) == Asks(cs[1]) && Read(dev, c) == Asks(cs[2])
    ensures Reads(dev, [a, b, c], cs)
  {
  }

  lemma RunTwo(st0: State, c: Command, st1: State, d: Command, st2: State)
    requires Step(st0, c) == Some(st1) && Step(st1, d) == Some(st2)
    ensures RunCommandsFrom(st0, [c, d]) == Outcome(st2, true)
  {
    assert [c, d][1..] == [d];
    assert RunCommandsFrom(st1, [d]) == RunCommandsFrom(st2, []);
  }

  lemma {:induction false} RunCommandsConcat(st: State, xs: seq<Command>, ys: seq<Command>)
    ensures RunCommandsFrom(st, xs + ys)
         == if RunCommandsFrom(st, xs).ok then RunCommandsFrom(RunCommandsFrom(st, xs).st, ys)
            else RunCommandsFrom(st, xs)
    decreases |xs|
  {
    if xs == [] {
      assert xs + ys == ys;
    } else {
      assert (xs + ys)[1..] == xs[1..] + ys;
      match Step(st, xs[0]) {
        case None =>
        case Some(next) => RunCommandsConcat(next, xs[1..], ys);
      }
    }
  }

  /** The device whose qdiscs the commands change. */
  class Device {
    const name: string
    var st: State

    constructor (name: string, st: State)
      ensures this.name == name && this.st == st
    {
      this.name := name;
      this.st := st;
    }

    /**
     * `runCommands`: runs in order and reports the first failure, leaving its partial effects. Past a
     * command whose effect cannot be told nothing is known.
     */
    method RunCommands(cmds: seq<Argv>) returns (ok: bool)
      modifies this`st
      ensures Run(name, old(st), cmds).Some? ==> Some(Outcome(st, ok)) == Run(name, old(st), cmds)
    {
      var i := 0;
      while i < |cmds|
        invariant i <= |cmds|
        invariant Run(name, old(st), cmds) == Run(name, st, cmds[i..])
      {
        assert cmds[i..][1..] == cmds[i + 1..];
        match Exec(name, st, cmds[i]) {
          case Failed => return false;
          case Unknown =>
            st := *;
            ok := *;
            return;
          case Done(next) => st := next;
        }
        i := i + 1;
      }
      ok := true;
    }
  }

  // ---------- What a state does to traffic ----------

  /** The matching filter with the lowest priority number, the earliest of these. */
  function Match(filters: seq<Filter>, dst: string): Option<Filter>
  {
    if filters == [] then None
    else
      var f := filters[|filters| - 1];
      match Match(filters[..|filters| - 1], dst)
      case None => if f.dst == dst then Some(f) else None
      case Some(g) => if f.dst == dst && f.prio < g.prio then Some(f) else Some(g)
  }

  function MatchPolicer(policers: seq<Policer>, src: string): Option<Policer>
  {
    if policers == [] then None
    else
      var p := policers[|policers| - 1];
      match MatchPolicer(policers[..|policers| - 1], src)
      case None => if p.src == src then Some(p) else None
      case Some(q) => if p.src == src && p.prio < q.prio then Some(p) else Some(q)
  }

  /** Sent straight out, or held to the rate, ceiling and burst of a class. */
  datatype Download = Unshaped | Shaped(rate: nat, ceil: nat, burst: Option<nat>)

  /** The treatment of packets to `dst`: the matching filter's class, else the default class. */
  function DownloadOf(st: State, dst: string): Download
  {
    if st.root.None? then Unshaped
    else
      var q := st.root.value;
      var minor := match Match(q.filters, dst)
        case Some(f) => if f.flow in q.classes then f.flow else q.fallback
        case None => q.fallback;
      if minor in q.classes then Shaped(q.classes[minor].rate, q.classes[minor].ceil, q.classes[minor].burst)
      else Unshaped
  }

  datatype Upload = Unpoliced | Policed(rate: nat, burst: nat)

  /** The treatment of packets from `src`. */
  function UploadOf(st: State, src: string): Upload
  {
    if st.ingress.None? then Unpoliced
    else match MatchPolicer(st.ingress.value, src)
      case None => Unpoliced
      case Some(p) => Policed(p.rate, p.burst)
  }
}
