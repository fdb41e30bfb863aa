/**
 * Client addresses: `NextClientAllowedIP` and `parseServerIPv4` of `internal/wireguard/peers.go`, and
 * the runs of creates, edits, deletes and configuration changes around it.
 */
module Allocator {
  import opened Wrappers
  import opened Ipv4
  import opened Hosts
  import Numbers
  import Text

  /** The stored configuration: absent, not readable, or the two fields that matter here. */
  datatype Config = Missing | Malformed | Settings(range: string, serverAddress: string)

  datatype Allocation = Allocated(cidr: string) | NotConfigured | BadConfig | InvalidRange | NoneLeft

  /** The configured client range; its base is stored masked. */
  function ParseRange(range: string): Option<Cidr>
  {
    match ParseCIDR(Text.Trim(range))
    case None => None
    case Some(p) => Some(Cidr(Mask(p.0, p.1), p.1))
  }

  function ParseServerIPv4(serverAddress: string): Option<Ip>
  {
    var t := Text.Trim(serverAddress);
    var s := match Text.IndexOf(t, ',') case Some(i) => Text.Trim(t[..i]) case None => t;
    SegmentIPv4(s)
  }

  function SegmentIPv4(s: string): Option<Ip>
  {
    match Text.IndexOf(s, '/')
    case None => ParseIP(s)
    case Some(i) =>
      match ParseCIDR(s)
      case Some(p) => Some(p.0)
      case None => ParseIP(Text.Trim(s[..i]))
  }

  lemma SegmentReadsBack(ip: Ip, suffix: string)
    ensures SegmentIPv4(String(ip)) == Some(ip) && SegmentIPv4(String(ip) + "/" + suffix) == Some(ip)
  {
    var host := String(ip);
    var s := host + ['/'] + suffix;
    HostCharacters(ip);
    StringIsTrimmed(ip);
    ParseIPOfString(ip);
    Text.IndexOfFinds(host, '/');
    Text.IndexOfPrefix(host, '/', suffix);
    assert s[..|host|] == host && s == host + "/" + suffix;
    Text.TrimOfTrimmed(host);
  }

  /**
   * The server's address is read from every form it is entered in: bare, with a prefix length or any other
   * suffix, and followed by further entries.
   */
  lemma ServerReadsBack(ip: Ip, suffix: string, rest: string)
    requires ',' !in suffix && (suffix == "" || !Text.IsSpace(suffix[|suffix| - 1]))
    ensures ParseServerIPv4(String(ip)) == Some(ip)
    ensures ParseServerIPv4(String(ip) + "/" + suffix) == Some(ip)
    ensures ParseServerIPv4(String(ip) + "/" + suffix + "," + rest) == Some(ip)
  {
    var host := String(ip);
    var entry := host + "/" + suffix;
    StringIsTrimmed(ip);
    SegmentReadsBack(ip, suffix);
    Text.TrimOfTrimmed(host);
    Text.IndexOfFinds(host, ',');
    assert entry[0] == host[0] && entry[|entry| - 1] == (if suffix == "" then '/' else suffix[|suffix| - 1]);
    assert ',' !in entry;
    Text.TrimOfTrimmed(entry);
    Text.IndexOfFinds(entry, ',');
    FirstEntry(entry, rest);
  }

  lemma FirstEntry(entry: string, rest: string)
    requires entry != "" && Text.Trimmed(entry) && ',' !in entry
    ensures ParseServerIPv4(entry + "," + rest) == SegmentIPv4(entry)
  {
    var s := entry + "," + rest;
    assert s[0] == entry[0] && s[|entry|] == ',';
    Text.TrimRightKeeps(s, |entry|);
    var t := Text.Trim(s);
    assert t[..|entry| + 1] == s[..|entry| + 1] == entry + [','];
    assert t == entry + [','] + t[|entry| + 1..];
    Text.IndexOfPrefix(entry, ',', t[|entry| + 1..]);
    assert t[..|entry|] == entry;
    Text.TrimOfTrimmed(entry);
  }

  /** The addresses that the table's rows occupy. */
  function TakenBy(users: map<string, string>): set<Ip>
  {
    set id | id in users && FirstIPv4InAllowedIPs(users[id]).Some? :: FirstIPv4InAllowedIPs(users[id]).value
  }

  /** The first candidate that is neither the server nor taken. */
  function FirstFree(hosts: seq<Ip>, server: Option<Ip>, taken: set<Ip>): Option<Ip>
  {
    if hosts == [] then None
    else if Some(hosts[0]) == server || hosts[0] in taken then FirstFree(hosts[1..], server, taken)
    else Some(hosts[0])
  }

  function Next(config: Config, taken: set<Ip>): Allocation
  {
    match config
    case Missing => NotConfigured
    case Malformed => BadConfig
    case Settings(range, serverAddress) =>
      match ParseRange(range)
      case None => InvalidRange
      case Some(net) =>
        match FirstFree(AllHosts(net), ParseServerIPv4(serverAddress), taken)
        case None => NoneLeft
        case Some(ip) => Allocated(String(ip) + "/32")
  }

  // ---------- What is allocated ----------

  predicate Free(net: Cidr, server: Option<Ip>, taken: set<Ip>, ip: Ip)
  {
    Listed(net) && IsHost(net, ip) && Some(ip) != server && ip !in taken
  }

  ghost predicate LowestFree(net: Cidr, server: Option<Ip>, taken: set<Ip>, ip: Ip)
  {
    Free(net, server, taken, ip) && forall other :: Free(net, server, taken, other) ==> Val(ip) <= Val(other)
  }

  lemma {:induction false} FirstFreeIsFirst(hosts: seq<Ip>, server: Option<Ip>, taken: set<Ip>)
    requires Increasing(hosts)
    ensures match FirstFree(hosts, server, taken)
            case None => forall ip :: ip in hosts ==> Some(ip) == server || ip in taken
            case Some(low) =>
              low in hosts && Some(low) != server && low !in taken
              && forall ip :: ip in hosts && Some(ip) != server && ip !in taken ==> Val(low) <= Val(ip)
  {
    if hosts != [] {
      FirstFreeIsFirst(hosts[1..], server, taken);
    }
  }

  /**
   * An allocation is the lowest free host of the client range. It fails exactly when there is no readable
   * configuration, or the range does not parse or has no free host; ranges wider than 65536 addresses count
   * as having none.
   */
  lemma AllocatesTheLowest(config: Config, taken: set<Ip>)
    ensures match config
            case Missing => Next(config, taken) == NotConfigured
            case Malformed => Next(config, taken) == BadConfig
            case Settings(range, serverAddress) =>
              var server := ParseServerIPv4(serverAddress);
              match ParseRange(range)
              case None => Next(config, taken) == InvalidRange
              case Some(net) =>
                (Next(config, taken) == NoneLeft <==> forall ip :: !Free(net, server, taken, ip))
                && forall ip :: Next(config, taken) == Allocated(String(ip) + "/32")
                                <==> LowestFree(net, server, taken, ip)
  {
    if config.Settings? && ParseRange(config.range).Some? {
      var net, server := ParseRange(config.range).value, ParseServerIPv4(config.serverAddress);
      FreeIsListed(net, server, taken);
      match FirstFree(AllHosts(net), server, taken) {
        case None =>
        case Some(low) =>
          assert LowestFree(net, server, taken, low);
          forall ip
            ensures String(low) + "/32" == String(ip) + "/32" <==> LowestFree(net, server, taken, ip)
          {
            SameHost(low, ip);
            if LowestFree(net, server, taken, ip) {
              ValInjective(low, ip);
            }
          }
      }
    }
  }

  // ---------- The allocation in terms of the entered texts ----------

  lemma RangeOfText(base: Ip, ones: nat)
    ensures ParseRange(String(base) + "/" + Numbers.Print(ones, 10))
         == if ones <= 32 then Some(Cidr(Mask(base, ones), ones)) else None
  {
    var range := String(base) + "/" + Numbers.Print(ones, 10);
    BlockIsSegment(base, ones);
    Text.TrimOfTrimmed(range);
    ParseCIDROfPrinted(base, ones);
  }

  /** Numbered strictly between the first and the last address of the block, and neither the server's nor used. */
  predicate Vacant(base: Ip, ones: nat, server: Ip, taken: set<Ip>, ip: Ip)
    requires ones < 32
  {
    var size := Pow2(32 - ones);
    var first := size * (Val(base) / size);
    first < Val(ip) < first + size - 1 && ip != server && ip !in taken
  }

  lemma VacantIsFree(base: Ip, ones: nat, server: Ip, taken: set<Ip>, ip: Ip)
    requires 16 <= ones < 32
    ensures Vacant(base, ones, server, taken, ip)
       <==> Free(Cidr(Mask(base, ones), ones), Some(server), taken, ip)
  {
    BlockOf(base, ones);
    HostIsInner(Cidr(Mask(base, ones), ones), ip);
  }

  lemma LowestVacant(base: Ip, ones: nat, server: Ip, taken: set<Ip>)
    requires 16 <= ones < 32
    ensures var net := Cidr(Mask(base, ones), ones);
            (forall ip :: Vacant(base, ones, server, taken, ip) <==> Free(net, Some(server), taken, ip))
            && forall ip :: LowestVacantIs(base, ones, server, taken, ip) <==> LowestFree(net, Some(server), taken, ip)
  {
    forall ip
      ensures Vacant(base, ones, server, taken, ip) <==> Free(Cidr(Mask(base, ones), ones), Some(server), taken, ip)
    {
      VacantIsFree(base, ones, server, taken, ip);
    }
  }

  ghost predicate LowestVacantIs(base: Ip, ones: nat, server: Ip, taken: set<Ip>, ip: Ip)
    requires ones < 32
  {
    Vacant(base, ones, server, taken, ip)
    && forall other :: Vacant(base, ones, server, taken, other) ==> Val(ip) <= Val(other)
  }

  /**
   * For a range entered as address and prefix length, and the server's address with any suffix: from 16 to 31
   * the allocation is the lowest vacant address, if there is one; below 16 and at 32 there is none, and
   * a longer prefix is refused.
   */
  lemma AllocationOfText(base: Ip, ones: nat, server: Ip, suffix: string, taken: set<Ip>)
    requires ',' !in suffix && (suffix == "" || !Text.IsSpace(suffix[|suffix| - 1]))
    ensures var r := Next(Settings(String(base) + "/" + Numbers.Print(ones, 10), String(server) + "/" + suffix), taken);
            if ones > 32 then r == InvalidRange
            else if ones < 16 || ones == 32 then r == NoneLeft
            else
              (r == NoneLeft <==> forall ip :: !Vacant(base, ones, server, taken, ip))
              && forall ip :: r == Allocated(String(ip) + "/32") <==> LowestVacantIs(base, ones, server, taken, ip)
  {
    RangeOfText(base, ones);
    ServerReadsBack(server, suffix, "");
    AllocatesTheLowest(Settings(String(base) + "/" + Numbers.Print(ones, 10), String(server) + "/" + suffix), taken);
    if 16 <= ones < 32 {
      LowestVacant(base, ones, server, taken);
    }
  }

  lemma SameHost(x: Ip, y: Ip)
    ensures String(x) + "/32" == String(y) + "/32" <==> x == y
  {
    ParseHost(x);
    ParseHost(y);
  }

  lemma FreeIsListed(net: Cidr, server: Option<Ip>, taken: set<Ip>)
    ensures match FirstFree(AllHosts(net), server, taken)
            case None => forall ip :: !Free(net, server, taken, ip)
            case Some(low) => LowestFree(net, server, taken, low)
  {
    if Listed(net) {
      HostsAreExact(net);
    }
    FirstFreeIsFirst(AllHosts(net), server, taken);
  }

  // ---------- The method ----------

  lemma SameString(x: Ip, y: Ip)
    ensures String(x) == String(y) <==> x == y
  {
    ParseIPOfString(x);
    ParseIPOfString(y);
  }

  /** The addresses in use as dotted text, rows in any order. */
  method UsedAddresses(users: map<string, string>) returns (used: set<string>)
    ensures forall ip :: String(ip) in used <==> ip in TakenBy(users)
  {
    used := {};
    var rest := users.Keys;
    while rest != {}
      invariant rest <= users.Keys
      invariant forall ip :: String(ip) in used <==>
                  exists id :: id in users && id !in rest && FirstIPv4InAllowedIPs(users[id]) == Some(ip)
      decreases |rest|
    {
      var id :| id in rest;
      var first := FirstIPv4InAllowedIPs(users[id]);
      ghost var before := used;
      if first.Some? {
        used := used + {String(first.value)};
      }
      forall ip ensures String(ip) in used <==> String(ip) in before || first == Some(ip) {
        if first.Some? {
          SameString(ip, first.value);
        }
      }
      rest := rest - {id};
    }
  }

  method NextClientAllowedIP(config: Config, users: map<string, string>) returns (r: Allocation)
    ensures r == Next(config, TakenBy(users))
  {
    if config.Missing? {
      return NotConfigured;
    }
    if config.Malformed? {
      return BadConfig;
    }
    var parsed := ParseRange(config.range);
    if parsed.None? {
      return InvalidRange;
    }
    var server := ParseServerIPv4(config.serverAddress);
    var used := UsedAddresses(users);
    var hosts := AllHostsIPv4(parsed.value);
    HostsIncrease(parsed.value);
    assert SortOf(hosts, hosts);
    var candidates: seq<Ip> :| SortOf(candidates, hosts);
    SortKeeps(hosts, candidates);
    ghost var taken := TakenBy(users);
    var i := 0;
    while i < |candidates|
      invariant i <= |candidates|
      invariant FirstFree(candidates, server, taken) == FirstFree(candidates[i..], server, taken)
    {
      var ip := candidates[i];
      if Some(ip) != server && String(ip) !in used {
        return Allocated(String(ip) + "/32");
      }
      assert candidates[i..][1..] == candidates[i + 1..];
      i := i + 1;
    }
    r := NoneLeft;
  }

  // ---------- Runs ----------

  /** `users` maps a user to its allowed_ips column. */
  datatype State = State(config: Config, users: map<string, string>)

  datatype Event =
    | Create(id: string, extra: string)
    | Edit(id: string, extra: string)
    | Delete(id: string)
    | Configure(config: Config)

  /** A new user's column. */
  function NewColumn(cidr: string, extra: string): string
  {
    var e := Text.Trim(extra);
    if e == "" then cidr else cidr + ", " + e
  }

  /** An edit keeps the first segment and replaces what follows. */
  function EditedColumn(column: string, extra: string): string
  {
    var vpnIP, e := Text.Trim(FirstTunnelIPCIDR(column)), Text.Trim(extra);
    if vpnIP == "" then e else if e == "" then vpnIP else vpnIP + ", " + e
  }

  /** User ids are unique: a create never reuses one. */
  predicate Enabled(s: State, e: Event)
  {
    e.Create? ==> e.id !in s.users
  }

  function Perform(s: State, e: Event): State
    requires Enabled(s, e)
  {
    match e
    case Create(id, extra) =>
      (match Next(s.config, TakenBy(s.users))
       case Allocated(cidr) => s.(users := s.users[id := NewColumn(cidr, extra)])
       case _ => s)
    case Edit(id, extra) =>
      if id in s.users then s.(users := s.users[id := EditedColumn(s.users[id], extra)]) else s
    case Delete(id) => s.(users := s.users - {id})
    case Configure(config) => s.(config := config)
  }

  predicate Legal(s: State, events: seq<Event>)
    decreases |events|
  {
    events == [] || (Enabled(s, events[0]) && Legal(Perform(s, events[0]), events[1..]))
  }

  function After(s: State, events: seq<Event>): State
    requires Legal(s, events)
    decreases |events|
  {
    if events == [] then s else After(Perform(s, events[0]), events[1..])
  }

  function AddressOf(column: string): Option<Ip>
  {
    FirstIPv4InAllowedIPs(column)
  }

  /** The column of a user that was given address `ip`. */
  predicate Holds(column: string, ip: Ip)
  {
    AddressOf(column) == Some(ip) && FirstTunnelIPCIDR(column) == String(ip) + "/32"
  }

  lemma NewHolds(ip: Ip, extra: string)
    ensures Holds(NewColumn(String(ip) + "/32", extra), ip)
  {
    Text.TrimIsTrimmed(extra);
    assert NewColumn(String(ip) + "/32", extra) == Column(ip, Text.Trim(extra));
    ColumnReadsBack(ip, Text.Trim(extra));
  }

  lemma EditHolds(column: string, extra: string, ip: Ip)
    requires Holds(column, ip)
    ensures Holds(EditedColumn(column, extra), ip)
  {
    HostCharacters(ip);
    Text.TrimOfTrimmed(String(ip) + "/32");
    assert EditedColumn(column, extra) == NewColumn(String(ip) + "/32", extra);
    NewHolds(ip, extra);
  }

  /** Every user has an address, and no two users the same. */
  predicate Inv(users: map<string, string>)
  {
    (forall id :: id in users ==> HasAddress(users[id]))
    && forall a, b :: a in users && b in users && a != b ==> AddressOf(users[a]) != AddressOf(users[b])
  }

  predicate HasAddress(column: string)
  {
    AddressOf(column).Some? && Holds(column, AddressOf(column).value)
  }

  lemma Put(users: map<string, string>, id: string, column: string, ip: Ip)
    requires Inv(users) && Holds(column, ip)
    requires forall b :: b in users && b != id ==> AddressOf(users[b]) != Some(ip)
    ensures Inv(users[id := column]) && AddressOf(column) == Some(ip)
  {
  }

  lemma Created(s: State, id: string, extra: string)
    requires Inv(s.users) && id !in s.users
    ensures var t := Perform(s, Create(id, extra));
            Inv(t.users)
            && (t == s || (id in t.users && AddressOf(t.users[id]).Some?
                           && s.config.Settings? && ParseRange(s.config.range).Some?
                           && LowestFree(ParseRange(s.config.range).value, ParseServerIPv4(s.config.serverAddress),
                                         TakenBy(s.users), AddressOf(t.users[id]).value)))
  {
    if s.config.Settings? && ParseRange(s.config.range).Some? {
      var net, server := ParseRange(s.config.range).value, ParseServerIPv4(s.config.serverAddress);
      FreeIsListed(net, server, TakenBy(s.users));
      match FirstFree(AllHosts(net), server, TakenBy(s.users)) {
        case None =>
        case Some(ip) =>
          NewHolds(ip, extra);
          Put(s.users, id, NewColumn(String(ip) + "/32", extra), ip);
      }
    }
  }

  lemma Edited(s: State, id: string, extra: string)
    requires Inv(s.users) && id in s.users
    ensures var t := Perform(s, Edit(id, extra));
            Inv(t.users) && AddressOf(t.users[id]) == AddressOf(s.users[id])
  {
    var ip := AddressOf(s.users[id]).value;
    EditHolds(s.users[id], extra, ip);
    Put(s.users, id, EditedColumn(s.users[id], extra), ip);
  }

  lemma StepKeepsInv(s: State, e: Event)
    requires Inv(s.users) && Enabled(s, e)
    ensures Inv(Perform(s, e).users)
  {
    match e {
      case Create(id, extra) => Created(s, id, extra);
      case Edit(id, extra) =>
        if id in s.users {
          Edited(s, id, extra);
        }
      case Delete(_) =>
      case Configure(_) =>
    }
  }

  /** Two users never have the same address, whatever is created, edited, deleted or reconfigured. */
  lemma {:induction false} AddressesStayDistinct(s: State, events: seq<Event>)
    requires Inv(s.users) && Legal(s, events)
    ensures Inv(After(s, events).users)
    decreases |events|
  {
    if events != [] {
      StepKeepsInv(s, events[0]);
      AddressesStayDistinct(Perform(s, events[0]), events[1..]);
    }
  }

  /**
   * A user keeps its address until it is deleted; the client config, the shaping map and the allocator
   * all read that address from the column.
   */
  lemma {:induction false} OneTunnelAddress(s: State, events: seq<Event>, id: string)
    requires Inv(s.users) && Legal(s, events) && id in s.users && Delete(id) !in events
    ensures var t := After(s, events);
            id in t.users
            && var column, ip := t.users[id], AddressOf(s.users[id]).value;
               FirstTunnelIPCIDR(column) == String(ip) + "/32"
               && TunnelIPv4(column) == String(ip)
               && AddressOf(column) == Some(ip)
    decreases |events|
  {
    ColumnTunnel(AddressOf(s.users[id]).value, s.users[id]);
    if events != [] {
      StepKeepsInv(s, events[0]);
      StepKeepsAddress(s, events[0], id);
      OneTunnelAddress(Perform(s, events[0]), events[1..], id);
    }
  }

  lemma OthersKeepColumn(s: State, e: Event, id: string)
    requires Enabled(s, e) && id in s.users && e != Delete(id) && !(e.Edit? && e.id == id)
    ensures var t := Perform(s, e);
            id in t.users && t.users[id] == s.users[id]
  {
  }

  lemma StepKeepsAddress(s: State, e: Event, id: string)
    requires Inv(s.users) && Enabled(s, e) && id in s.users && e != Delete(id)
    ensures var t := Perform(s, e);
            id in t.users && AddressOf(t.users[id]) == AddressOf(s.users[id])
  {
    if e.Edit? && e.id == id {
      Edited(s, id, e.extra);
    } else {
      OthersKeepColumn(s, e, id);
    }
  }

  /** The edit at `i` is the last one of user `id`. */
  predicate LastEdit(events: seq<Event>, i: nat, id: string)
  {
    i < |events| && events[i].Edit? && events[i].id == id
    && forall j :: i < j < |events| ==> !(events[j].Edit? && events[j].id == id)
  }

  lemma {:induction false} UneditedStays(s: State, events: seq<Event>, id: string)
    requires Legal(s, events) && id in s.users && Delete(id) !in events
    requires forall j :: 0 <= j < |events| ==> !(events[j].Edit? && events[j].id == id)
    ensures id in After(s, events).users && After(s, events).users[id] == s.users[id]
    decreases |events|
  {
    if events != [] {
      OthersKeepColumn(s, events[0], id);
      UneditedStays(Perform(s, events[0]), events[1..], id);
    }
  }

  /** An address and the prefixes entered with it. */
  function Stored(ip: Ip, extra: string): string
  {
    String(ip) + "/32" + if Text.Trim(extra) == "" then "" else ", " + Text.Trim(extra)
  }

  lemma EditWrites(column: string, extra: string, ip: Ip)
    requires Holds(column, ip)
    ensures EditedColumn(column, extra) == Stored(ip, extra)
  {
    var host := String(ip) + "/32";
    HostCharacters(ip);
    Text.TrimOfTrimmed(host);
    assert host + ", " + Text.Trim(extra) == host + (", " + Text.Trim(extra));
    assert host + "" == host;
  }

  lemma EditedThenLeft(s: State, events: seq<Event>, id: string)
    requires Inv(s.users) && Legal(s, events) && id in s.users && Delete(id) !in events && LastEdit(events, 0, id)
    ensures id in After(s, events).users
    ensures After(s, events).users[id] == Stored(AddressOf(s.users[id]).value, events[0].extra)
  {
    EditWrites(s.users[id], events[0].extra, AddressOf(s.users[id]).value);
    UneditedStays(Perform(s, events[0]), events[1..], id);
  }

  /** A user's column is its address followed by the prefixes entered last, whatever happens to the others. */
  lemma {:induction false} LastEditStands(s: State, events: seq<Event>, i: nat, id: string)
    requires Inv(s.users) && Legal(s, events) && id in s.users && Delete(id) !in events && LastEdit(events, i, id)
    ensures id in After(s, events).users
    ensures After(s, events).users[id] == Stored(AddressOf(s.users[id]).value, events[i].extra)
    decreases |events|
  {
    if i == 0 {
      EditedThenLeft(s, events, id);
    } else {
      StepKeepsInv(s, events[0]);
      StepKeepsAddress(s, events[0], id);
      LastEditStands(Perform(s, events[0]), events[1..], i - 1, id);
    }
  }

  /** Every address is a host of the range and not the server's. */
  ghost predicate InRange(s: State)
  {
    forall id :: id in s.users ==> ValidIn(s.config, AddressOf(s.users[id]))
  }

  predicate ValidIn(config: Config, ip: Option<Ip>)
  {
    config.Settings? && ParseRange(config.range).Some? && ip.Some?
    && ip != ParseServerIPv4(config.serverAddress)
    && Listed(ParseRange(config.range).value) && IsHost(ParseRange(config.range).value, ip.value)
  }

  /** While the configuration stays, every address lies in the range and none is the server's. */
  lemma {:induction false} AddressesStayInRange(s: State, events: seq<Event>)
    requires Inv(s.users) && InRange(s) && Legal(s, events)
    requires forall i :: 0 <= i < |events| ==> !events[i].Configure?
    ensures InRange(After(s, events))
    decreases |events|
  {
    if events != [] {
      StepKeepsInv(s, events[0]);
      StepKeepsRange(s, events[0]);
      AddressesStayInRange(Perform(s, events[0]), events[1..]);
    }
  }

  lemma CreatedInRange(s: State, id: string, extra: string)
    requires Inv(s.users) && InRange(s) && id !in s.users
    ensures InRange(Perform(s, Create(id, extra)))
  {
    var t := Perform(s, Create(id, extra));
    Created(s, id, extra);
    forall b | b in t.users ensures ValidIn(t.config, AddressOf(t.users[b])) {
      if b != id {
        OthersKeepColumn(s, Create(id, extra), b);
        assert ValidIn(s.config, AddressOf(s.users[b]));
      }
    }
  }

  lemma EditedInRange(s: State, id: string, extra: string)
    requires Inv(s.users) && InRange(s) && id in s.users
    ensures InRange(Perform(s, Edit(id, extra)))
  {
    Edited(s, id, extra);
    forall b | b in s.users ensures ValidIn(s.config, AddressOf(s.users[b])) {
    }
  }

  lemma StepKeepsRange(s: State, e: Event)
    requires Inv(s.users) && InRange(s) && Enabled(s, e) && !e.Configure?
    ensures InRange(Perform(s, e))
  {
    match e {
      case Create(id, extra) => CreatedInRange(s, id, extra);
      case Edit(id, extra) =>
        if id in s.users {
          EditedInRange(s, id, extra);
        }
      case Delete(_) =>
      case Configure(_) =>
    }
  }
}
