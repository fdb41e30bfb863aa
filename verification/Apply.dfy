/**
 * `internal/pcq/apply.go`: load, plan and run under one mutex, alone and with other handlers
 * writing the tables and applying at the same time.
 */
module Apply {
  import opened Wrappers
  import Limits
  import Plan
  import Preview
  import Rates
  import Shaping
  import ShellQuote
  import Tc
  import Text

  // ---------- One call ----------

  lemma {:induction false} MapExists(rows: set<Limits.Row>) returns (m: Limits.LimitMap)
    ensures Limits.Denotes(m, Limits.Entries(rows))
  {
    var s := SomeOrder(rows);
    Limits.FoldDenotes(s);
    m := Limits.Fold(s);
  }

  lemma {:induction false} SomeOrder(rows: set<Limits.Row>) returns (s: seq<Limits.Row>)
    ensures Limits.Elements(s) == rows
  {
    if rows == {} {
      s := [];
    } else {
      var r :| r in rows;
      var t := SomeOrder(rows - {r});
      s := t + [r];
      assert Limits.Elements(s) == Limits.Elements(t) + {r};
    }
  }

  lemma LimitsAreDefined(db: Limits.Database)
    ensures exists m :: Limits.Denotes(m, Limits.Entries(Limits.JoinRows(db)))
  {
    var m := MapExists(Limits.JoinRows(db));
  }

  /** The limit map of the tables as they stand. */
  ghost function LimitsOf(db: Limits.Database): (m: Limits.LimitMap)
    ensures Limits.Denotes(m, Limits.Entries(Limits.JoinRows(db)))
  {
    LimitsAreDefined(db);
    var m :| Limits.Denotes(m, Limits.Entries(Limits.JoinRows(db)));
    m
  }

  lemma LimitsReflect(db: Limits.Database)
    ensures Limits.Reflects(LimitsOf(db), db, None)
  {
    Limits.DenotesReflects(LimitsOf(db), db, None);
  }

  /**
   * `Apply`, holding the lock throughout; `loaded` is the query's result, None when it fails. The printed
   * plan is returned with the outcome. On a device whose name is one shell word, it ends in the state of
   * the current tables also when a command is refused, which happens exactly when too many addresses are
   * upload-limited.
   */
  method Apply(db: Limits.Database, loaded: Option<seq<Limits.Row>>, wgIface: string, disabled: bool,
               device: Tc.Device)
    returns (lines: Option<seq<string>>, ok: bool)
    requires loaded.Some? ==> Limits.Elements(loaded.value) == Limits.JoinRows(db)
    requires device.name == Text.Trim(wgIface) != ""
    modifies device
    ensures !disabled && loaded.None? ==> lines == None && !ok && device.st == old(device.st)
    ensures disabled || loaded.Some? ==>
              var peers := if disabled then map[] else LimitsOf(db);
              var out := Tc.Run(device.name, old(device.st), Plan.PlanFor(wgIface, peers));
              && (!disabled ==> Limits.Reflects(peers, db, None))
              && lines == Some(Preview.Lines(Plan.PlanFor(wgIface, peers)))
              && (out.Some? ==> out == Some(Tc.Outcome(device.st, ok)))
              && (ShellQuote.ShellWord(device.name) ==>
                    device.st == Shaping.StateFor(peers)
                    && (ok <==> |Shaping.UploadPeers(peers)| <= 65526))
  {
    var peers: Limits.LimitMap := map[];
    if !disabled {
      if loaded.None? {
        return None, false;
      }
      peers := Limits.LoadPeerLimits(db, loaded.value);
      Limits.DenotesUnique(peers, LimitsOf(db), Limits.Entries(Limits.JoinRows(db)));
    }
    var cmds := Plan.Plan(wgIface, peers);
    var printed := Preview.FormatPlan(cmds);
    lines := Some(printed);
    if ShellQuote.ShellWord(device.name) {
      Shaping.PlanReplaces(wgIface, peers, device.st);
      Shaping.PolicedIsUploadLimited(peers, "");
    }
    ok := device.RunCommands(cmds);
  }

  // ---------- From the tables to the wire ----------

  lemma LeastInMap(db: Limits.Database, ip: string, k: Limits.Kind, v: int)
    requires ip != "" && Limits.IsLeastSetting(v, db, None, ip, k)
    ensures Limits.Get(Limits.Lookup(LimitsOf(db), ip), k) == v
  {
    var m := LimitsOf(db);
    LimitsReflect(db);
    if ip in m {
      assert Limits.IsLeastSetting(Limits.Get(m[ip], k), db, None, ip, k);
    }
  }

  /**
   * In the state of the tables each address moves at the nearest rate to its least setting over all
   * memberships in force, and without one it is not limited.
   */
  lemma WireFollowsTables(db: Limits.Database, ip: string, down: int, up: int)
    requires ip != "" && Limits.IsLeastSetting(down, db, None, ip, Limits.Download)
    requires Limits.IsLeastSetting(up, db, None, ip, Limits.Upload)
    requires |Shaping.DownloadPeers(LimitsOf(db))| <= 65181 && |Shaping.UploadPeers(LimitsOf(db))| <= 65526
    ensures var d := Tc.DownloadOf(Shaping.StateFor(LimitsOf(db)), ip);
            if down > 0 then d.Shaped? && Rates.IsRate(d.rate, down)
            else d == Tc.Unshaped || d == Tc.Shaped(100_000_000_000, 100_000_000_000, None)
    ensures var u := Tc.UploadOf(Shaping.StateFor(LimitsOf(db)), ip);
            if up > 0 then u.Policed? && Rates.IsRate(u.rate, up) else u == Tc.Unpoliced
  {
    var m := LimitsOf(db);
    LeastInMap(db, ip, Limits.Download, down);
    LeastInMap(db, ip, Limits.Upload, up);
    Shaping.EveryCapIsEnforced(m);
    assert Shaping.HasClass(m, ip) <==> Shaping.DownloadLimited(m, ip);
    assert Shaping.HasPolicer(m, ip) <==> Shaping.UploadLimited(m, ip);
    Shaping.DownloadsAsMeant(m, ip);
    Shaping.UploadsAsMeant(m, ip);
    Shaping.CapsInNumbers(m, ip);
  }

  // ---------- Many handlers ----------

  /** Where one handler is: done, waiting for the lock, holding it, or running its program. */
  datatype Pc = Idle | Waiting | Locked | Running(rest: seq<Tc.Argv>)

  /** `goal` is the map that the latest load produced, once there was one. */
  datatype System = System(db: Limits.Database, tc: Tc.State, lock: Option<nat>, pcs: map<nat, Pc>,
                           goal: Option<Limits.LimitMap>)

  datatype Event =
    | Write(h: nat, db: Limits.Database)
    | WriteOnly(db: Limits.Database)
    | Acquire(h: nat)
    | Load(h: nat)
    | Exec(h: nat, surprise: Tc.State, stops: bool)
    | Release(h: nat)

  function PcOf(s: System, h: nat): Pc
  {
    if h in s.pcs then s.pcs[h] else Idle
  }

  predicate Enabled(s: System, e: Event)
  {
    match e
    case Write(h, _) => PcOf(s, h) == Idle
    case WriteOnly(_) => true
    case Acquire(h) => PcOf(s, h) == Waiting && s.lock.None?
    case Load(h) => PcOf(s, h) == Locked
    case Exec(h, _, _) => PcOf(s, h).Running? && PcOf(s, h).rest != []
    case Release(h) => PcOf(s, h) == Running([])
  }

  /** The next command of a handler; where its effect cannot be told, the event says what it is. */
  function ExecNext(dev: string, s: System, h: nat, rest: seq<Tc.Argv>, surprise: Tc.State, stops: bool): System
    requires rest != []
  {
    match Tc.Exec(dev, s.tc, rest[0])
    case Failed => s.(lock := None, pcs := s.pcs[h := Idle])
    case Done(tc) => s.(tc := tc, pcs := s.pcs[h := Running(rest[1..])])
    case Unknown =>
      if stops then s.(tc := surprise, lock := None, pcs := s.pcs[h := Idle])
      else s.(tc := surprise, pcs := s.pcs[h := Running(rest[1..])])
  }

  /**
   * One atomic step. `Write` changes the tables and goes on to reconcile; `WriteOnly` changes them
   * and does not, as deleting a group or a sync tick does. A refused command ends the call.
   */
  ghost function Perform(wgIface: string, s: System, e: Event): System
    requires Enabled(s, e)
  {
    match e
    case Write(h, db) => s.(db := db, pcs := s.pcs[h := Waiting])
    case WriteOnly(db) => s.(db := db)
    case Acquire(h) => s.(lock := Some(h), pcs := s.pcs[h := Locked])
    case Load(h) =>
      var peers := LimitsOf(s.db);
      s.(goal := Some(peers), pcs := s.pcs[h := Running(Plan.PlanFor(wgIface, peers))])
    case Exec(h, surprise, stops) =>
      ExecNext(Text.Trim(wgIface), s, h, PcOf(s, h).rest, surprise, stops)
    case Release(h) => s.(lock := None, pcs := s.pcs[h := Idle])
  }

  ghost predicate Legal(wgIface: string, s: System, events: seq<Event>)
    decreases |events|
  {
    events == [] || (Enabled(s, events[0]) && Legal(wgIface, Perform(wgIface, s, events[0]), events[1..]))
  }

  ghost function After(wgIface: string, s: System, events: seq<Event>): System
    requires Legal(wgIface, s, events)
    decreases |events|
  {
    if events == [] then s else After(wgIface, Perform(wgIface, s, events[0]), events[1..])
  }

  predicate Quiet(s: System)
  {
    forall h :: h in s.pcs ==> s.pcs[h] == Idle
  }

  /** The lock is held exactly by the one handler inside. */
  ghost predicate LockInv(s: System)
  {
    forall h: nat :: (PcOf(s, h).Locked? || PcOf(s, h).Running?) <==> s.lock == Some(h)
  }

  /** What is left of the program of the handler inside. */
  function RestOf(s: System): seq<Tc.Argv>
  {
    if s.lock.Some? && PcOf(s, s.lock.value).Running? then PcOf(s, s.lock.value).rest else []
  }

  /** What is left of the program ends in state `st`. */
  predicate LeadsTo(dev: string, s: System, st: Tc.State)
  {
    var out := Tc.Run(dev, s.tc, RestOf(s));
    out.Some? && out.value.st == st
  }

  /** Once something was loaded, what is left of the program leads to the state of the loaded map. */
  ghost predicate GoalInv(wgIface: string, s: System)
  {
    if s.goal.Some? then LeadsTo(Text.Trim(wgIface), s, Shaping.StateFor(s.goal.value))
    else RestOf(s) == []
  }

  ghost predicate Inv(wgIface: string, s: System)
  {
    LockInv(s) && GoalInv(wgIface, s)
  }

  /** Every change since the latest load has a handler that has yet to load. */
  ghost predicate Covered(s: System)
  {
    s.goal == Some(LimitsOf(s.db)) || exists h :: h in s.pcs && (s.pcs[h].Waiting? || s.pcs[h].Locked?)
  }

  lemma OthersUnchanged(wgIface: string, s: System, e: Event, g: nat)
    requires Enabled(s, e)
    ensures (e.WriteOnly? || g != e.h) ==> PcOf(Perform(wgIface, s, e), g) == PcOf(s, g)
  {
  }

  lemma StepKeepsLock(wgIface: string, s: System, e: Event)
    requires LockInv(s) && Enabled(s, e)
    ensures LockInv(Perform(wgIface, s, e))
  {
    forall g: nat {
      OthersUnchanged(wgIface, s, e, g);
    }
  }

  /** Running one command of the rest does not change where the rest leads. */
  lemma ExecKeepsOutcome(dev: string, s: System, h: nat, surprise: Tc.State, stops: bool, st: Tc.State)
    requires LockInv(s) && PcOf(s, h).Running? && PcOf(s, h).rest != [] && LeadsTo(dev, s, st)
    ensures LeadsTo(dev, ExecNext(dev, s, h, PcOf(s, h).rest, surprise, stops), st)
  {
    assert s.lock == Some(h);
  }

  lemma GoalSet(wgIface: string, s: System, h: nat)
    requires Inv(wgIface, s) && PcOf(s, h).Running? && PcOf(s, h).rest != []
    ensures s.goal.Some? && LeadsTo(Text.Trim(wgIface), s, Shaping.StateFor(s.goal.value))
  {
    assert s.lock == Some(h);
  }

  lemma GoalMet(wgIface: string, t: System, goal: Limits.LimitMap)
    requires t.goal == Some(goal) && LeadsTo(Text.Trim(wgIface), t, Shaping.StateFor(goal))
    ensures GoalInv(wgIface, t)
  {
  }

  lemma ExecKeepsTables(dev: string, s: System, h: nat, rest: seq<Tc.Argv>, surprise: Tc.State, stops: bool)
    requires rest != []
    ensures ExecNext(dev, s, h, rest, surprise, stops).goal == s.goal
  {
  }

  lemma ExecKeepsGoal(wgIface: string, s: System, h: nat, surprise: Tc.State, stops: bool)
    requires Inv(wgIface, s) && PcOf(s, h).Running? && PcOf(s, h).rest != []
    ensures GoalInv(wgIface, ExecNext(Text.Trim(wgIface), s, h, PcOf(s, h).rest, surprise, stops))
  {
    var dev, rest := Text.Trim(wgIface), PcOf(s, h).rest;
    GoalSet(wgIface, s, h);
    var goal := s.goal.value;
    ExecKeepsOutcome(dev, s, h, surprise, stops, Shaping.StateFor(goal));
    ExecKeepsTables(dev, s, h, rest, surprise, stops);
    GoalMet(wgIface, ExecNext(dev, s, h, rest, surprise, stops), goal);
  }

  lemma ProgramLeads(wgIface: string, t: System, h: nat, peers: Limits.LimitMap)
    requires ShellQuote.ShellWord(Text.Trim(wgIface))
    requires t.lock == Some(h) && PcOf(t, h) == Running(Plan.PlanFor(wgIface, peers))
    ensures LeadsTo(Text.Trim(wgIface), t, Shaping.StateFor(peers))
  {
    Shaping.PlanReplaces(wgIface, peers, t.tc);
  }

  lemma LoadMeetsGoal(wgIface: string, s: System, h: nat)
    requires ShellQuote.ShellWord(Text.Trim(wgIface)) && Inv(wgIface, s) && Enabled(s, Load(h))
    ensures GoalInv(wgIface, Perform(wgIface, s, Load(h)))
  {
    assert s.lock == Some(h);
    var t := Perform(wgIface, s, Load(h));
    ProgramLeads(wgIface, t, h, LimitsOf(s.db));
    GoalMet(wgIface, t, LimitsOf(s.db));
  }

  lemma StepKeepsGoal(wgIface: string, s: System, e: Event)
    requires ShellQuote.ShellWord(Text.Trim(wgIface)) && Inv(wgIface, s) && Enabled(s, e)
    ensures GoalInv(wgIface, Perform(wgIface, s, e))
  {
    if e.Exec? {
      ExecKeepsGoal(wgIface, s, e.h, e.surprise, e.stops);
    } else if e.Load? {
      LoadMeetsGoal(wgIface, s, e.h);
    } else {
      SameRest(wgIface, s, e);
    }
  }

  lemma SameRest(wgIface: string, s: System, e: Event)
    requires LockInv(s) && Enabled(s, e) && !e.Exec? && !e.Load?
    ensures var t := Perform(wgIface, s, e);
            RestOf(t) == RestOf(s) && t.tc == s.tc && t.goal == s.goal
  {
    match e {
      case Acquire(h) => assert PcOf(s, h) == Waiting;
      case Release(h) => assert s.lock == Some(h);
      case Write(h, _) => assert s.lock != Some(h);
      case WriteOnly(_) =>
    }
  }

  lemma StepKeepsInv(wgIface: string, s: System, e: Event)
    requires ShellQuote.ShellWord(Text.Trim(wgIface)) && Inv(wgIface, s) && Enabled(s, e)
    ensures Inv(wgIface, Perform(wgIface, s, e))
  {
    StepKeepsLock(wgIface, s, e);
    StepKeepsGoal(wgIface, s, e);
  }

  /** A handler that has yet to load, other than the one that steps, still has to. */
  lemma OthersStillWait(wgIface: string, s: System, e: Event)
    requires Enabled(s, e) && (e.Exec? || e.Release?) && Covered(s)
    ensures Covered(Perform(wgIface, s, e))
  {
    var t := Perform(wgIface, s, e);
    assert t.goal == s.goal && t.db == s.db;
    if s.goal != Some(LimitsOf(s.db)) {
      var g :| g in s.pcs && (s.pcs[g].Waiting? || s.pcs[g].Locked?);
      assert g in t.pcs && t.pcs[g] == s.pcs[g];
    }
  }

  lemma StepKeepsCovered(wgIface: string, s: System, e: Event)
    requires Enabled(s, e) && !e.WriteOnly?
    requires Covered(s)
    ensures Covered(Perform(wgIface, s, e))
  {
    var t := Perform(wgIface, s, e);
    if e.Exec? || e.Release? {
      OthersStillWait(wgIface, s, e);
    } else if e.Write? {
      assert t.pcs[e.h].Waiting?;
    } else if e.Acquire? {
      assert t.pcs[e.h].Locked?;
    }
  }

  /**
   * Whatever handlers write and however their calls interleave, at rest the device is in the state
   * of the tables as the latest call loaded them.
   */
  lemma {:induction false} RestIsLatestLoad(wgIface: string, s: System, events: seq<Event>)
    requires ShellQuote.ShellWord(Text.Trim(wgIface)) && Inv(wgIface, s) && Legal(wgIface, s, events)
    ensures var t := After(wgIface, s, events);
            Inv(wgIface, t)
            && (Quiet(t) && t.goal.Some? ==> t.tc == Shaping.StateFor(t.goal.value))
    decreases |events|
  {
    if events == [] {
      if Quiet(s) {
        assert forall h: nat :: PcOf(s, h) == Idle;
      }
    } else {
      StepKeepsInv(wgIface, s, events[0]);
      RestIsLatestLoad(wgIface, Perform(wgIface, s, events[0]), events[1..]);
    }
  }

  lemma {:induction false} RunKeepsCovered(wgIface: string, s: System, events: seq<Event>)
    requires Legal(wgIface, s, events) && Covered(s)
    requires forall i :: 0 <= i < |events| ==> !events[i].WriteOnly?
    ensures Covered(After(wgIface, s, events))
    decreases |events|
  {
    if events != [] {
      StepKeepsCovered(wgIface, s, events[0]);
      RunKeepsCovered(wgIface, Perform(wgIface, s, events[0]), events[1..]);
    }
  }

  /** Every write goes on to reconcile. */
  predicate AllReconcile(events: seq<Event>)
  {
    forall i :: 0 <= i < |events| ==> !events[i].WriteOnly?
  }

  /**
   * From any state of the device and tables in which one handler waits, once every handler is done the
   * device is in the state of the final tables.
   */
  lemma HandlersConverge(wgIface: string, s: System, events: seq<Event>)
    requires ShellQuote.ShellWord(Text.Trim(wgIface)) && Inv(wgIface, s) && Legal(wgIface, s, events)
    requires Covered(s) && AllReconcile(events) && Quiet(After(wgIface, s, events))
    ensures var t := After(wgIface, s, events);
            t.tc == Shaping.StateFor(LimitsOf(t.db))
  {
    RestIsLatestLoad(wgIface, s, events);
    RunKeepsCovered(wgIface, s, events);
  }

  /** A start-up state: nothing runs, the device is in an arbitrary state and the first handler has written. */
  function Start(db: Limits.Database, tc: Tc.State, h: nat): System
  {
    System(db, tc, None, map[h := Waiting], None)
  }

  lemma StartIsCovered(wgIface: string, db: Limits.Database, tc: Tc.State, h: nat)
    ensures Inv(wgIface, Start(db, tc, h)) && Covered(Start(db, tc, h))
  {
    assert h in Start(db, tc, h).pcs;
  }

  /** Whatever state the service finds the device in, it ends in that of the final tables. */
  ghost predicate Converges(wgIface: string)
  {
    forall db, tc, h, events ::
      Legal(wgIface, Start(db, tc, h), events) && AllReconcile(events)
      && Quiet(After(wgIface, Start(db, tc, h), events)) ==>
        var t := After(wgIface, Start(db, tc, h), events);
        t.tc == Shaping.StateFor(LimitsOf(t.db))
  }

  /** The handler inside, left alone, ends; where an effect cannot be told the device ends in `surprise`. */
  lemma {:induction false} RunAlone(wgIface: string, s: System, h: nat, surprise: Tc.State)
    returns (events: seq<Event>)
    requires s.lock == Some(h) && PcOf(s, h).Running? && forall g :: g in s.pcs && g != h ==> s.pcs[g] == Idle
    ensures Legal(wgIface, s, events) && AllReconcile(events)
    ensures var t := After(wgIface, s, events);
            var out := Tc.Run(Text.Trim(wgIface), s.tc, PcOf(s, h).rest);
            Quiet(t) && t.db == s.db && t.tc == if out.Some? then out.value.st else surprise
    decreases |PcOf(s, h).rest|
  {
    var rest := PcOf(s, h).rest;
    if rest == [] {
      events := OneStep(wgIface, s, Release(h));
    } else {
      var e := Exec(h, surprise, true);
      var t := Perform(wgIface, s, e);
      if Tc.Exec(Text.Trim(wgIface), s.tc, rest[0]).Done? {
        assert PcOf(t, h) == Running(rest[1..]);
        var more := RunAlone(wgIface, t, h, surprise);
        events := [e] + more;
        assert events[1..] == more;
      } else {
        events := OneStep(wgIface, s, e);
      }
    }
  }

  lemma OneStep(wgIface: string, s: System, e: Event) returns (events: seq<Event>)
    requires Enabled(s, e)
    ensures events == [e] && Legal(wgIface, s, events) && After(wgIface, s, events) == Perform(wgIface, s, e)
  {
    events := [e];
    assert events[1..] == [];
  }

  /** On any other name, one undisturbed call leaves a shaped device as it was. */
  lemma OldShapingStays(wgIface: string, db: Limits.Database) returns (events: seq<Event>)
    requires Text.Trim(wgIface) != "" && !ShellQuote.ShellWord(Text.Trim(wgIface))
    ensures var s := Start(db, Shaping.Stray(), 0);
            Legal(wgIface, s, events) && AllReconcile(events) && Quiet(After(wgIface, s, events))
            && After(wgIface, s, events).db == db && After(wgIface, s, events).tc == Shaping.Stray()
  {
    var stray := Shaping.Stray();
    var s := Start(db, stray, 0);
    var t := Perform(wgIface, s, Acquire(0));
    var u := Perform(wgIface, t, Load(0));
    Shaping.PlanMisses(wgIface, LimitsOf(db), stray);
    var more := RunAlone(wgIface, u, 0, stray);
    Prefixed(wgIface, t, Load(0), more);
    Prefixed(wgIface, s, Acquire(0), [Load(0)] + more);
    events := [Acquire(0)] + ([Load(0)] + more);
  }

  lemma Prefixed(wgIface: string, s: System, e: Event, events: seq<Event>)
    requires Enabled(s, e) && !e.WriteOnly? && Legal(wgIface, Perform(wgIface, s, e), events) && AllReconcile(events)
    ensures Legal(wgIface, s, [e] + events) && AllReconcile([e] + events)
    ensures After(wgIface, s, [e] + events) == After(wgIface, Perform(wgIface, s, e), events)
  {
    assert ([e] + events)[1..] == events;
  }

  /** Convergence holds exactly on interfaces whose name is one shell word. */
  lemma Convergence(wgIface: string)
    requires Text.Trim(wgIface) != ""
    ensures Converges(wgIface) <==> ShellQuote.ShellWord(Text.Trim(wgIface))
  {
    if ShellQuote.ShellWord(Text.Trim(wgIface)) {
      forall db, tc, h, events |
        Legal(wgIface, Start(db, tc, h), events) && AllReconcile(events)
        && Quiet(After(wgIface, Start(db, tc, h), events))
        ensures var t := After(wgIface, Start(db, tc, h), events);
                t.tc == Shaping.StateFor(LimitsOf(t.db))
      {
        StartIsCovered(wgIface, db, tc, h);
        HandlersConverge(wgIface, Start(db, tc, h), events);
      }
    } else {
      var db := Limits.Database(map[], map[], {});
      var events := OldShapingStays(wgIface, db);
      Shaping.StrayIsNoState(LimitsOf(db));
      assert Legal(wgIface, Start(db, Shaping.Stray(), 0), events);
    }
  }

  /** No deadlock: a handler that is not done can always lead to some step. */
  lemma SomeStepIsEnabled(s: System)
    requires LockInv(s) && !Quiet(s)
    ensures exists e :: Enabled(s, e) && !e.Write? && !e.WriteOnly?
  {
    var h :| h in s.pcs && s.pcs[h] != Idle;
    var g := if s.lock.Some? then s.lock.value else h;
    assert PcOf(s, h) == s.pcs[h];
    match PcOf(s, g) {
      case Idle => assert false;
      case Waiting => assert Enabled(s, Acquire(g));
      case Locked => assert Enabled(s, Load(g));
      case Running(rest) => assert Enabled(s, if rest == [] then Release(g) else Exec(g, s.tc, true));
    }
  }

  // ---------- A write that does not reconcile ----------

  /**
   * Deleting a group reconciles nothing. At rest, with the device in the state of the tables, the delete
   * leaves the limit map that the device was given exactly when the group is redundant; and it leaves the
   * device in the state of the tables exactly when every address is treated alike with and without it.
   */
  lemma DeletingAGroup(wgIface: string, s: System, group: string)
    requires Quiet(s) && s.goal == Some(LimitsOf(s.db)) && s.tc == Shaping.StateFor(LimitsOf(s.db))
    ensures var e := WriteOnly(Limits.DeleteGroup(s.db, group));
            var t := Perform(wgIface, s, e);
            && Enabled(s, e) && Quiet(t)
            && (t.goal == Some(LimitsOf(t.db)) <==> Limits.Redundant(s.db, group))
            && (t.tc == Shaping.StateFor(LimitsOf(t.db))
                <==> forall ip :: Shaping.SameTreatment(LimitsOf(s.db), LimitsOf(t.db), ip))
            && (Limits.Redundant(s.db, group) ==> t.tc == Shaping.StateFor(LimitsOf(t.db)))
  {
    var db := Limits.DeleteGroup(s.db, group);
    Limits.DeletingAGroupKeepsTheMap(s.db, group, LimitsOf(s.db), LimitsOf(db));
    Shaping.SameState(LimitsOf(s.db), LimitsOf(db));
  }

  /** The only download cap of an address goes with its group, and its class stays on the device. */
  lemma LastCapStays(wgIface: string, s: System, group: string, ip: string)
    requires Quiet(s) && s.goal == Some(LimitsOf(s.db)) && s.tc == Shaping.StateFor(LimitsOf(s.db))
    requires Shaping.HasClass(LimitsOf(s.db), ip)
    requires forall e :: e in Limits.Entries(Limits.RowsOfOthers(s.db, group)) ==> !Limits.Sets(e, ip, Limits.Download)
    ensures var t := Perform(wgIface, s, WriteOnly(Limits.DeleteGroup(s.db, group)));
            t.tc != Shaping.StateFor(LimitsOf(t.db))
  {
    var db := Limits.DeleteGroup(s.db, group);
    var n := LimitsOf(db);
    Limits.RowsAfterDelete(s.db, group);
    if ip in n {
      assert Limits.HasEntry(Limits.Entries(Limits.JoinRows(db)), ip);
      assert Limits.IsLeastCap(Limits.Get(Limits.Lookup(n, ip), Limits.Download),
                               Limits.Entries(Limits.JoinRows(db)), ip, Limits.Download);
    }
    assert !Shaping.DownloadLimited(n, ip);
    assert !Shaping.SameTreatment(LimitsOf(s.db), n, ip);
    DeletingAGroup(wgIface, s, group);
  }
}
