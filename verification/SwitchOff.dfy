/**
 * Switching a user off: handlers in their two parts (changing the table, then writing the config from it
 * and applying that), sync ticks in their two parts (reading the kernel dump, then committing row
 * updates), and kernel traffic, interleaved.
 */
module SwitchOff {
  import opened Wrappers
  import RoundTrip
  import Sorting
  import Sync
  import Text
  import WgConfig

  datatype Account = Account(row: Sync.User, allowedIPs: string)

  /** `inflight` is the dump that a tick has read and not yet committed. */
  datatype System = System(users: map<string, Account>, kernel: Sync.Dump, inflight: Option<Sync.Dump>)

  datatype Event =
    | Create(id: string, account: Account)
    | Edit(id: string, account: Account)
    | Toggle(id: string)
    | Delete(id: string)
    | Reconfigure
    | ReadDump
    | Commit(now: int, interval: int)
    | Traffic(kernel: Sync.Dump)

  /** A user with a key, an address and the flag set gets a peer section. */
  predicate Served(a: Account)
  {
    a.row.enabled && a.row.publicKey != "" && Text.Trim(a.allowedIPs) != ""
  }

  function ServedKeys(users: map<string, Account>): set<string>
  {
    set id | id in users && Served(users[id]) :: users[id].row.publicKey
  }

  /** Writing the config and applying it: exactly the served keys, with the counters of those already there. */
  function Applied(users: map<string, Account>, kernel: Sync.Dump): Sync.Dump
  {
    map k | k in ServedKeys(users) :: if k in kernel then kernel[k] else Sync.Peer(k, "", 0, 0, 0)
  }

  /** The columns that the config writer reads. */
  function Table(users: map<string, Account>): WgConfig.Users
  {
    map id | id in users ::
      WgConfig.User(true, users[id].row.enabled, Some(users[id].row.publicKey), None, Some(users[id].allowedIPs), None)
  }

  /** The served keys are those of the peers that reading the written wg0.conf gives. */
  lemma ConfigServes(users: map<string, Account>, keepalive: int)
    ensures var peers := RoundTrip.PeersOf(Table(users), Sorting.SortedKeys(Table(users).Keys), keepalive);
            forall k :: k in ServedKeys(users) <==> exists p :: p in peers && p.publicKey == k
  {
    var peers := RoundTrip.PeersOf(Table(users), Sorting.SortedKeys(Table(users).Keys), keepalive);
    RoundTrip.PeersAreTheWrittenUsers(Table(users), keepalive);
    forall k | k in ServedKeys(users) ensures exists p :: p in peers && p.publicKey == k {
      var id :| id in users && Served(users[id]) && users[id].row.publicKey == k;
      assert RoundTrip.IsServed(Table(users)[id]);
      var p :| p in peers && p.username == id;
      assert RoundTrip.IsPeerOf(p, Table(users), keepalive);
    }
    forall p | p in peers ensures p.publicKey in ServedKeys(users) {
      assert RoundTrip.IsPeerOf(p, Table(users), keepalive);
      assert Served(users[p.username]);
    }
  }

  /** Two users never share a public key. */
  predicate DistinctKeys(users: map<string, Account>)
  {
    forall a, b :: a in users && b in users && a != b && users[a].row.publicKey != "" ==>
      users[a].row.publicKey != users[b].row.publicKey
  }

  function Committed(s: System, dump: Sync.Dump, now: int, interval: int): System
    requires interval > 0
  {
    s.(users := map id | id in s.users ::
                  s.users[id].(row := Sync.TickRow(s.users[id].row, dump, now, interval)),
       inflight := None)
  }

  /** What admin steps and ticks demand; keys of new or edited users are not in use elsewhere. */
  predicate Enabled(s: System, e: Event)
  {
    match e
    case Create(id, a) => id !in s.users && DistinctKeys(s.users[id := a])
    case Edit(id, a) => id in s.users && DistinctKeys(s.users[id := a])
    case Toggle(id) => id in s.users
    case Delete(id) => id in s.users
    case Reconfigure => true
    case ReadDump => s.inflight.None?
    case Commit(_, interval) => s.inflight.Some? && interval > 0
    case Traffic(kernel) => kernel.Keys == s.kernel.Keys
  }

  function Perform(s: System, e: Event): System
    requires Enabled(s, e)
  {
    match e
    case Create(id, a) => s.(users := s.users[id := a])
    case Edit(id, a) => s.(users := s.users[id := a])
    case Toggle(id) =>
      var a := s.users[id];
      s.(users := s.users[id := a.(row := a.row.(enabled := !a.row.enabled))])
    case Delete(id) => s.(users := s.users - {id})
    case Reconfigure => s.(kernel := Applied(s.users, s.kernel))
    case ReadDump => s.(inflight := Some(s.kernel))
    case Commit(now, interval) => Committed(s, s.inflight.value, now, interval)
    case Traffic(kernel) => s.(kernel := kernel)
  }

  predicate Touches(e: Event, id: string)
  {
    match e
    case Create(i, _) => i == id
    case Edit(i, _) => i == id
    case Toggle(i) => i == id
    case Delete(i) => i == id
    case _ => false
  }

  /** User `id` is off: flag clear, and its key neither in the kernel nor in a dump to be committed. */
  predicate Off(s: System, id: string)
  {
    id in s.users && !s.users[id].row.enabled && DistinctKeys(s.users)
    && s.users[id].row.publicKey !in s.kernel
    && (s.inflight.Some? ==> s.users[id].row.publicKey !in s.inflight.value)
  }

  lemma ServedKeysOf(users: map<string, Account>, id: string)
    requires id in users && !users[id].row.enabled && DistinctKeys(users)
    ensures users[id].row.publicKey !in ServedKeys(users)
  {
  }

  lemma TickKeepsKey(u: Sync.User, dump: Sync.Dump, now: int, interval: int)
    requires interval > 0
    ensures Sync.TickRow(u, dump, now, interval).publicKey == u.publicKey
  {
  }

  lemma CommitKeepsKeys(s: System, dump: Sync.Dump, now: int, interval: int)
    requires interval > 0 && DistinctKeys(s.users)
    ensures DistinctKeys(Committed(s, dump, now, interval).users)
  {
    forall id | id in s.users
      ensures Committed(s, dump, now, interval).users[id].row.publicKey == s.users[id].row.publicKey
    {
      TickKeepsKey(s.users[id].row, dump, now, interval);
    }
  }

  lemma StepKeepsOff(s: System, e: Event, id: string)
    requires Off(s, id) && Enabled(s, e) && !Touches(e, id)
    ensures Off(Perform(s, e), id)
  {
    match e {
      case Reconfigure => ServedKeysOf(s.users, id);
      case Commit(now, interval) =>
        CommitKeepsKeys(s, s.inflight.value, now, interval);
        Sync.AbsentRowKeeps(s.users[id].row, s.inflight.value, now, interval);
      case _ =>
    }
  }

  predicate Legal(s: System, events: seq<Event>)
    decreases |events|
  {
    events == [] || (Enabled(s, events[0]) && Legal(Perform(s, events[0]), events[1..]))
  }

  function After(s: System, events: seq<Event>): System
    requires Legal(s, events)
    decreases |events|
  {
    if events == [] then s else After(Perform(s, events[0]), events[1..])
  }

  /**
   * Switched off stays off: no sequence of ticks, traffic and admin steps on other users sets the flag
   * again or brings the key back into the kernel.
   */
  lemma {:induction false} OffStaysOff(s: System, events: seq<Event>, id: string)
    requires Off(s, id) && Legal(s, events)
    requires forall i :: 0 <= i < |events| ==> !Touches(events[i], id)
    ensures Off(After(s, events), id)
    decreases |events|
  {
    if events != [] {
      StepKeepsOff(s, events[0], id);
      OffStaysOff(Perform(s, events[0]), events[1..], id);
    }
  }

  /** The admin steps that switch a user off. */
  predicate SwitchesOff(s: System, e: Event, id: string)
  {
    (e == Toggle(id) && id in s.users && s.users[id].row.enabled)
    || (e.Edit? && e.id == id && !e.account.row.enabled)
  }

  // ---------- The whole handler ----------

  /** A commit whose dump holds the user's peer. */
  predicate Sees(s: System, e: Event, id: string)
  {
    e.Commit? && s.inflight.Some? && id in s.users
    && s.users[id].row.publicKey != "" && s.users[id].row.publicKey in s.inflight.value
  }

  predicate SeenIn(s: System, events: seq<Event>, id: string)
    requires Legal(s, events)
    decreases |events|
  {
    events != [] && (Sees(s, events[0], id) || SeenIn(Perform(s, events[0]), events[1..], id))
  }

  predicate QuotaLeft(s: System, id: string)
  {
    id in s.users && !Sync.Exhausted(s.users[id].row.days, s.users[id].row.traffic)
  }

  /** Some commit saw the peer and left it quota, and none after it saw the peer again. */
  predicate Revived(s: System, events: seq<Event>, id: string)
    requires Legal(s, events)
    decreases |events|
  {
    events != []
    && var t := Perform(s, events[0]);
       Revived(t, events[1..], id)
       || (Sees(s, events[0], id) && QuotaLeft(t, id) && !SeenIn(t, events[1..], id))
  }

  predicate Untouched(events: seq<Event>, id: string)
  {
    forall i :: 0 <= i < |events| ==> !Touches(events[i], id)
  }

  /** A step of others sets the flag exactly when it is a commit that sees the peer and leaves it quota. */
  lemma StepOnFlag(s: System, e: Event, id: string)
    requires Enabled(s, e) && !Touches(e, id) && id in s.users && DistinctKeys(s.users)
    ensures var t := Perform(s, e);
            id in t.users && DistinctKeys(t.users) && t.users[id].row.publicKey == s.users[id].row.publicKey
            && (t.users[id].row.enabled <==> if Sees(s, e, id) then QuotaLeft(t, id) else s.users[id].row.enabled)
  {
    if e.Commit? {
      var u := s.users[id].row;
      var dump := s.inflight.value;
      CommitKeepsKeys(s, dump, e.now, e.interval);
      TickKeepsKey(u, dump, e.now, e.interval);
      if Sees(s, e, id) {
        Sync.EnabledIsMemoryless(u, dump[u.publicKey], e.now, e.interval, false);
      } else if u.publicKey !in dump {
        Sync.AbsentRowKeeps(u, dump, e.now, e.interval);
      }
    }
  }

  /** Over a run of others' steps the last commit that saw the peer decides, and without one the flag stays. */
  lemma {:induction false} RunOnFlag(s: System, events: seq<Event>, id: string)
    requires Legal(s, events) && Untouched(events, id) && id in s.users && DistinctKeys(s.users)
    ensures var t := After(s, events);
            id in t.users && DistinctKeys(t.users) && t.users[id].row.publicKey == s.users[id].row.publicKey
            && (t.users[id].row.enabled
                <==> Revived(s, events, id) || (s.users[id].row.enabled && !SeenIn(s, events, id)))
    decreases |events|
  {
    if events != [] {
      StepOnFlag(s, events[0], id);
      RunOnFlag(Perform(s, events[0]), events[1..], id);
    }
  }

  /**
   * A handler changes the table, others and ticks go on, and it writes and applies the config. Then the
   * user is off if and only if no tick meanwhile saw its peer and left it the last word with quota to
   * spare, and none that read its dump before is still to commit.
   */
  lemma SwitchingOff(s: System, e: Event, meanwhile: seq<Event>, id: string)
    requires DistinctKeys(s.users) && Enabled(s, e) && SwitchesOff(s, e, id)
    requires Legal(Perform(s, e), meanwhile) && Untouched(meanwhile, id)
    ensures var t := After(Perform(s, e), meanwhile);
            Off(Perform(t, Reconfigure), id)
            <==> !Revived(Perform(s, e), meanwhile, id)
                 && (t.inflight.Some? ==> Perform(s, e).users[id].row.publicKey !in t.inflight.value)
  {
    RunOnFlag(Perform(s, e), meanwhile, id);
    var t := After(Perform(s, e), meanwhile);
    if !t.users[id].row.enabled {
      ServedKeysOf(t.users, id);
    }
  }

  /** No tick is in flight and none reads a dump. */
  predicate NoTick(s: System, events: seq<Event>)
  {
    s.inflight.None? && forall i :: 0 <= i < |events| ==> !events[i].ReadDump?
  }

  lemma {:induction false} NoTickSeesNothing(s: System, events: seq<Event>, id: string)
    requires Legal(s, events) && NoTick(s, events)
    ensures !SeenIn(s, events, id) && !Revived(s, events, id) && After(s, events).inflight.None?
    decreases |events|
  {
    if events != [] {
      assert NoTick(Perform(s, events[0]), events[1..]);
      NoTickSeesNothing(Perform(s, events[0]), events[1..], id);
    }
  }

  /** A handler that no tick overlaps switches the user off. */
  lemma UndisturbedHandler(s: System, e: Event, meanwhile: seq<Event>, id: string)
    requires DistinctKeys(s.users) && Enabled(s, e) && SwitchesOff(s, e, id)
    requires Legal(Perform(s, e), meanwhile) && Untouched(meanwhile, id) && NoTick(Perform(s, e), meanwhile)
    ensures Off(Perform(After(Perform(s, e), meanwhile), Reconfigure), id)
  {
    NoTickSeesNothing(Perform(s, e), meanwhile, id);
    SwitchingOff(s, e, meanwhile, id);
  }

  /**
   * A whole tick between the two parts of the handler undoes it: the flag is set again, no tick is in
   * flight, and the config that the handler then applies serves the peer.
   */
  lemma TickInsideHandler(s: System, id: string, now: int, interval: int)
    requires DistinctKeys(s.users) && s.inflight.None? && interval > 0
    requires id in s.users && Served(s.users[id]) && s.users[id].row.publicKey in s.kernel
    requires var u := s.users[id].row;
             var v := Sync.TickRow(u.(enabled := false), s.kernel, now, interval);
             !Sync.Exhausted(v.days, v.traffic)
    ensures var t := Perform(Perform(Perform(Perform(s, Toggle(id)), ReadDump), Commit(now, interval)), Reconfigure);
            t.users[id].row.enabled && t.inflight.None? && t.users[id].row.publicKey in t.kernel
  {
    var u := s.users[id].row.(enabled := false);
    var before := Perform(Perform(s, Toggle(id)), ReadDump);
    var t := Perform(before, Commit(now, interval));
    assert before.users[id].row == u;
    StepOnFlag(before, Commit(now, interval), id);
    assert t.users[id].row == Sync.TickRow(u, s.kernel, now, interval);
    assert QuotaLeft(t, id);
    assert Served(t.users[id]);
    assert t.users[id].row.publicKey in ServedKeys(t.users);
  }

  /**
   * A tick in flight decides: its commit sets the flag again exactly when the dump holds the peer and no
   * limited quota is used up.
   */
  lemma InFlightTickDecides(s: System, id: string, now: int, interval: int)
    requires s.inflight.Some? && interval > 0 && id in s.users
    requires !s.users[id].row.enabled && s.users[id].row.publicKey != ""
    ensures var row := Perform(s, Commit(now, interval)).users[id].row;
            row.enabled <==> s.users[id].row.publicKey in s.inflight.value
                             && !Sync.Exhausted(row.days, row.traffic)
  {
    var u := s.users[id].row;
    var dump := s.inflight.value;
    if u.publicKey in dump {
      Sync.EnabledIsMemoryless(u, dump[u.publicKey], now, interval, false);
    }
  }
}
