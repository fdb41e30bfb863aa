/**
 * One tick of the sync engine, `internal/wireguard/syncer.go`: kernel counters in, user rows and a
 * bandwidth snapshot out. Times are whole seconds.
 */
module Sync {
  import opened Wrappers

  const DAY: int := 86400
  const TIMEOUT: int := 120

  /** The last_day_check column: NULL, a text that is no time, or a time. */
  datatype DayCheck = Never | Unreadable | At(t: int)

  /** A row of vpn_users, without the columns that the tick does not touch. */
  datatype User = User(publicKey: string, connected: bool, connectedAt: Option<int>, endpoint: string,
                       lastHandshake: Option<int>,
                       rx: int, tx: int, prevRx: int, prevTx: int, rxRate: int, txRate: int,
                       totalRx: int, totalTx: int,
                       days: Option<int>, traffic: Option<int>, lastCheck: DayCheck, enabled: bool)

  /** A peer line of the kernel dump. */
  datatype Peer = Peer(publicKey: string, endpoint: string, handshake: int, rx: int, tx: int)

  datatype Snapshot = Snapshot(download: int, upload: int, time: int)

  type Dump = map<string, Peer>

  // ---------- The parts of a row update ----------

  function Max(a: int, b: int): int
  {
    if a > b then a else b
  }

  /** A counter below its last sample shows that the kernel started counting again. */
  predicate ResetDetected(u: User, p: Peer)
  {
    p.rx < u.rx || p.tx < u.tx
  }

  /** Bytes per second since the previous sample, 0 when either direction went down. */
  function Rate(delta: int, other: int, interval: int): int
    requires interval > 0
  {
    if delta >= 0 && other >= 0 then delta / interval else 0
  }

  function DaysAfter(u: User, now: int): Option<int>
  {
    match u.days
    case None => None
    case Some(rd) =>
      if rd > 0 && u.lastCheck.At? && (now - u.lastCheck.t) / DAY >= 1
      then Some(Max(0, rd - (now - u.lastCheck.t) / DAY))
      else Some(rd)
  }

  function CheckAfter(u: User, now: int): DayCheck
  {
    if u.days.None? then u.lastCheck
    else if u.days.value <= 0 then (if u.lastCheck == Never then Unreadable else u.lastCheck)
    else if u.lastCheck.At? && (now - u.lastCheck.t) / DAY < 1 then u.lastCheck
    else At(now)
  }

  /** Bytes accounted for in both directions. */
  function Recorded(u: User): int
  {
    u.totalRx + u.totalTx + u.rx + u.tx
  }

  function TotalsAfter(u: User, p: Peer): (int, int)
  {
    if ResetDetected(u, p) then (u.totalRx + u.rx, u.totalTx + u.tx) else (u.totalRx, u.totalTx)
  }

  function TrafficAfter(u: User, p: Peer): Option<int>
  {
    match u.traffic
    case None => None
    case Some(q) =>
      var t := TotalsAfter(u, p);
      var rem := q - (t.0 + t.1 + p.rx + p.tx - Recorded(u));
      Some(if rem <= 0 then 0 else rem)
  }

  /** Whether a limited quota is used up. */
  predicate Exhausted(days: Option<int>, traffic: Option<int>)
  {
    (days.Some? && days.value <= 0) || (traffic.Some? && traffic.value <= 0)
  }

  function EnabledAfter(u: User, p: Peer, now: int): bool
  {
    var days, traffic := DaysAfter(u, now), TrafficAfter(u, p);
    var disable := (traffic.Some? && traffic.value == 0) || (days.Some? && days.value <= 0);
    var enable := !u.enabled && !disable
                  && (traffic.None? || traffic.value > 0) && (days.None? || days.value > 0);
    if disable && u.enabled then false
    else if enable && !u.enabled then true
    else u.enabled
  }

  predicate Connected(p: Peer, now: int)
  {
    p.handshake > 0 && now - p.handshake < TIMEOUT
  }

  /** The row of a peer that is in the dump. */
  function Sampled(u: User, p: Peer, now: int, interval: int): User
    requires interval > 0
  {
    u.(connected := Connected(p, now),
       connectedAt := if Connected(p, now) && !u.connected then Some(now) else u.connectedAt,
       endpoint := p.endpoint,
       lastHandshake := if p.handshake > 0 then Some(p.handshake) else None,
       rx := p.rx, tx := p.tx, prevRx := p.rx, prevTx := p.tx,
       rxRate := Rate(p.rx - u.prevRx, p.tx - u.prevTx, interval),
       txRate := Rate(p.tx - u.prevTx, p.rx - u.prevRx, interval),
       totalRx := TotalsAfter(u, p).0, totalTx := TotalsAfter(u, p).1,
       days := DaysAfter(u, now), traffic := TrafficAfter(u, p), lastCheck := CheckAfter(u, now),
       enabled := EnabledAfter(u, p, now))
  }

  /** The row of a peer that is not: only the connection columns are cleared. */
  function Missing(u: User): User
  {
    if u.connected then u.(connected := false, endpoint := "", lastHandshake := None) else u
  }

  function TickRow(u: User, dump: Dump, now: int, interval: int): User
    requires interval > 0
  {
    if u.publicKey == "" then u
    else if u.publicKey !in dump then Missing(u)
    else Sampled(u, dump[u.publicKey], now, interval)
  }

  function TickAll(users: seq<User>, dump: Dump, now: int, interval: int): (out: seq<User>)
    requires interval > 0
    ensures |out| == |users|
    ensures forall i :: 0 <= i < |users| ==> out[i] == TickRow(users[i], dump, now, interval)
  {
    seq(|users|, i requires 0 <= i < |users| => TickRow(users[i], dump, now, interval))
  }

  // ---------- The snapshot ----------

  /** Rows that count towards the totals: keyed, connected and enabled. */
  predicate Counts(u: User)
  {
    u.publicKey != "" && u.connected && u.enabled
  }

  function DownloadRate(users: seq<User>): int
  {
    if users == [] then 0
    else
      var u := users[|users| - 1];
      DownloadRate(users[..|users| - 1]) + if Counts(u) then u.txRate else 0
  }

  function UploadRate(users: seq<User>): int
  {
    if users == [] then 0
    else
      var u := users[|users| - 1];
      UploadRate(users[..|users| - 1]) + if Counts(u) then u.rxRate else 0
  }

  /** Snapshots older than a day are dropped. */
  function Recent(snaps: seq<Snapshot>, now: int): seq<Snapshot>
  {
    if snaps == [] then []
    else
      Recent(snaps[..|snaps| - 1], now)
      + if snaps[|snaps| - 1].time < now - DAY then [] else [snaps[|snaps| - 1]]
  }

  // ---------- The tick ----------

  function PeerByKey(peers: seq<Peer>): Dump
  {
    if peers == [] then map[]
    else PeerByKey(peers[..|peers| - 1])[peers[|peers| - 1].publicKey := peers[|peers| - 1]]
  }

  method BuildDump(peers: seq<Peer>) returns (dump: Dump)
    ensures dump == PeerByKey(peers)
  {
    dump := map[];
    for i := 0 to |peers|
      invariant dump == PeerByKey(peers[..i])
    {
      assert peers[..i + 1][..i] == peers[..i];
      dump := dump[peers[i].publicKey := peers[i]];
    }
    assert peers[..|peers|] == peers;
  }

  lemma RatesNext(users: seq<User>, i: nat)
    requires i < |users|
    ensures DownloadRate(users[..i + 1])
         == DownloadRate(users[..i]) + if Counts(users[i]) then users[i].txRate else 0
    ensures UploadRate(users[..i + 1])
         == UploadRate(users[..i]) + if Counts(users[i]) then users[i].rxRate else 0
  {
    assert users[..i + 1][..i] == users[..i];
  }

  /** The user and snapshot tables. */
  class Store {
    var users: seq<User>
    var snapshots: seq<Snapshot>

    constructor (users: seq<User>, snapshots: seq<Snapshot>)
      ensures this.users == users && this.snapshots == snapshots
    {
      this.users, this.snapshots := users, snapshots;
    }

    /** The row loop: every row is brought up to date, and the rates of the rows that count are summed. */
    method UpdateRows(dump: Dump, now: int, interval: int) returns (download: int, upload: int)
      requires interval > 0
      modifies this`users
      ensures users == TickAll(old(users), dump, now, interval)
      ensures download == DownloadRate(users) && upload == UploadRate(users)
    {
      download, upload := 0, 0;
      ghost var before := users;
      var i := 0;
      while i < |users|
        invariant 0 <= i <= |users| == |before|
        invariant forall j :: 0 <= j < i ==> users[j] == TickRow(before[j], dump, now, interval)
        invariant forall j :: i <= j < |users| ==> users[j] == before[j]
        invariant download == DownloadRate(users[..i]) && upload == UploadRate(users[..i])
      {
        var u := UpdateRow(users[i], dump, now, interval);
        ghost var prev := users;
        users := users[i := u];
        assert users[..i] == prev[..i];
        RatesNext(users, i);
        if Counts(u) {
          download := download + u.txRate;
          upload := upload + u.rxRate;
        }
        i := i + 1;
      }
      assert users[..i] == users;
      assert users == TickAll(before, dump, now, interval);
    }

    /** `syncOnce`, once the dump is read: the rows, then one more snapshot. */
    method SyncOnce(peers: seq<Peer>, now: int, intervalSec: int)
      modifies this
      ensures users == TickAll(old(users), PeerByKey(peers), now, Max(1, intervalSec))
      ensures snapshots == Recent(old(snapshots) + [Snapshot(DownloadRate(users), UploadRate(users), now)], now)
      ensures var dump := PeerByKey(peers);
              snapshots != [] && snapshots[|snapshots| - 1]
                 == Snapshot(ServedDownload(old(users), dump, now, Max(1, intervalSec)),
                             ServedUpload(old(users), dump, now, Max(1, intervalSec)), now)
    {
      var dump := BuildDump(peers);
      RatesAreServed(users, dump, now, Max(1, intervalSec));
      var download, upload := UpdateRows(dump, now, Max(1, intervalSec));
      NewestIsKept(snapshots, Snapshot(download, upload, now), now);
      snapshots := Recent(snapshots + [Snapshot(download, upload, now)], now);
    }
  }

  method UpdateDays(u: User, now: int) returns (newDays: Option<int>, newCheck: DayCheck)
    ensures newDays == DaysAfter(u, now) && newCheck == CheckAfter(u, now)
  {
    newDays, newCheck := u.days, u.lastCheck;
    if u.days.Some? {
      var rd := u.days.value;
      if rd > 0 {
        if u.lastCheck.At? {
          var days := (now - u.lastCheck.t) / DAY;
          if days >= 1 {
            newDays, newCheck := Some(Max(0, rd - days)), At(now);
          }
        } else {
          newCheck := At(now);
        }
      } else if u.lastCheck == Never {
        newCheck := Unreadable;
      }
    }
  }

  method UpdateQuotas(u: User, p: Peer, newTotalRx: int, newTotalTx: int, newDays: Option<int>, ghost now: int)
    returns (newTraffic: Option<int>, newEnabled: bool)
    requires (newTotalRx, newTotalTx) == TotalsAfter(u, p) && newDays == DaysAfter(u, now)
    ensures newTraffic == TrafficAfter(u, p) && newEnabled == EnabledAfter(u, p, now)
  {
    newTraffic := u.traffic;
    var disable, enable := false, false;
    if u.traffic.Some? {
      var prevTotalUsage := u.totalRx + u.totalTx + u.rx + u.tx;
      var curTotalUsage := newTotalRx + newTotalTx + p.rx + p.tx;
      var rem := u.traffic.value - (curTotalUsage - prevTotalUsage);
      if rem <= 0 {
        rem, disable := 0, true;
      }
      newTraffic := Some(rem);
    }
    if newDays.Some? && newDays.value <= 0 {
      disable := true;
    }
    if !u.enabled && !disable {
      var hasTraffic := newTraffic.None? || newTraffic.value > 0;
      var hasDays := newDays.None? || newDays.value > 0;
      if hasTraffic && hasDays {
        enable := true;
      }
    }
    newEnabled := u.enabled;
    if disable && u.enabled {
      newEnabled := false;
    }
    if enable && !u.enabled {
      newEnabled := true;
    }
  }

  /** The body of the row loop. */
  method UpdateRow(u: User, dump: Dump, now: int, interval: int) returns (v: User)
    requires interval > 0
    ensures v == TickRow(u, dump, now, interval)
  {
    if u.publicKey == "" {
      return u;
    }
    if u.publicKey !in dump {
      return Missing(u);
    }
    var p := dump[u.publicKey];
    var connected := Connected(p, now);
    var newTotalRx, newTotalTx := u.totalRx, u.totalTx;
    if p.rx < u.rx || p.tx < u.tx {
      newTotalRx, newTotalTx := u.totalRx + u.rx, u.totalTx + u.tx;
    }
    var rxRate, txRate := 0, 0;
    var deltaRx, deltaTx := p.rx - u.prevRx, p.tx - u.prevTx;
    if deltaRx >= 0 && deltaTx >= 0 {
      rxRate, txRate := deltaRx / interval, deltaTx / interval;
    }
    var newDays, newCheck := UpdateDays(u, now);
    var newTraffic, newEnabled := UpdateQuotas(u, p, newTotalRx, newTotalTx, newDays, now);
    v := u.(connected := connected,
            connectedAt := if connected && !u.connected then Some(now) else u.connectedAt,
            endpoint := p.endpoint,
            lastHandshake := if p.handshake > 0 then Some(p.handshake) else None,
            rx := p.rx, tx := p.tx, prevRx := p.rx, prevTx := p.tx, rxRate := rxRate, txRate := txRate,
            totalRx := newTotalRx, totalTx := newTotalTx,
            days := newDays, traffic := newTraffic, lastCheck := newCheck, enabled := newEnabled);
  }

  // ---------- What the snapshot sums ----------

  /** Only keyed, connected and enabled rows add anything, and they add exactly their two rates. */
  lemma RowAdds(users: seq<User>, u: User)
    ensures var on := u.publicKey != "" && u.connected && u.enabled;
            && DownloadRate(users + [u]) == DownloadRate(users) + (if on then u.txRate else 0)
            && UploadRate(users + [u]) == UploadRate(users) + (if on then u.rxRate else 0)
  {
    assert (users + [u])[..|users|] == users;
  }

  /** The row's peer is in the dump, was seen under two minutes ago, and no limited quota is used up after the tick. */
  predicate ServedBy(u: User, dump: Dump, now: int)
  {
    u.publicKey != "" && u.publicKey in dump
    && var p := dump[u.publicKey];
       p.handshake > 0 && now < p.handshake + 120 && !Exhausted(DaysAfter(u, now), TrafficAfter(u, p))
  }

  /** Bytes per second sent to the served rows since their last samples. */
  function ServedDownload(users: seq<User>, dump: Dump, now: int, interval: int): int
    requires interval > 0
  {
    if users == [] then 0
    else
      var u := users[|users| - 1];
      ServedDownload(users[..|users| - 1], dump, now, interval)
      + if ServedBy(u, dump, now) then TickRow(u, dump, now, interval).txRate else 0
  }

  function ServedUpload(users: seq<User>, dump: Dump, now: int, interval: int): int
    requires interval > 0
  {
    if users == [] then 0
    else
      var u := users[|users| - 1];
      ServedUpload(users[..|users| - 1], dump, now, interval)
      + if ServedBy(u, dump, now) then TickRow(u, dump, now, interval).rxRate else 0
  }

  lemma ServedCounts(u: User, dump: Dump, now: int, interval: int)
    requires interval > 0
    ensures var v := TickRow(u, dump, now, interval);
            v.publicKey != "" && v.connected && v.enabled <==> ServedBy(u, dump, now)
  {
    if u.publicKey in dump {
      EnabledIsMemoryless(u, dump[u.publicKey], now, interval, u.enabled);
    }
  }

  /** The sums over the rows after a tick are over exactly the rows that it served. */
  lemma {:induction false} RatesAreServed(users: seq<User>, dump: Dump, now: int, interval: int)
    requires interval > 0
    ensures DownloadRate(TickAll(users, dump, now, interval)) == ServedDownload(users, dump, now, interval)
    ensures UploadRate(TickAll(users, dump, now, interval)) == ServedUpload(users, dump, now, interval)
  {
    if users != [] {
      var n := |users| - 1;
      RatesAreServed(users[..n], dump, now, interval);
      ServedCounts(users[n], dump, now, interval);
      RowAdds(TickAll(users[..n], dump, now, interval), TickRow(users[n], dump, now, interval));
      assert TickAll(users, dump, now, interval)
          == TickAll(users[..n], dump, now, interval) + [TickRow(users[n], dump, now, interval)];
    }
  }

  // ---------- What the cleanup keeps ----------

  lemma NewestIsKept(snaps: seq<Snapshot>, s: Snapshot, now: int)
    requires s.time == now
    ensures Recent(snaps + [s], now) == Recent(snaps, now) + [s]
  {
    assert (snaps + [s])[..|snaps|] == snaps;
  }

  /** The cleanup keeps the snapshots of the last 86400 seconds, in order. */
  lemma {:induction false} RecentConcat(a: seq<Snapshot>, b: seq<Snapshot>, now: int)
    ensures Recent(a + b, now) == Recent(a, now) + Recent(b, now)
    decreases |b|
  {
    if b == [] {
      assert a + b == a;
    } else {
      var n := |b| - 1;
      RecentConcat(a, b[..n], now);
      assert (a + b)[..|a| + n] == a + b[..n];
    }
  }

  lemma {:induction false} RecentHolds(snaps: seq<Snapshot>, now: int, s: Snapshot)
    ensures s in Recent(snaps, now) <==> s in snaps && s.time >= now - 86400
  {
    if snaps != [] {
      var n := |snaps| - 1;
      RecentHolds(snaps[..n], now, s);
      assert snaps == snaps[..n] + [snaps[n]];
    }
  }

  /** Cleaning up twice keeps what the later clean-up keeps. */
  lemma {:induction false} RecentTwice(snaps: seq<Snapshot>, earlier: int, now: int)
    requires earlier <= now
    ensures Recent(Recent(snaps, earlier), now) == Recent(snaps, now)
  {
    if snaps != [] {
      var n := |snaps| - 1;
      RecentTwice(snaps[..n], earlier, now);
      if snaps[n].time >= earlier - DAY {
        RecentConcat(Recent(snaps[..n], earlier), [snaps[n]], now);
        assert [snaps[n]][..0] == [];
      } else {
        assert Recent(snaps, earlier) == Recent(snaps[..n], earlier);
      }
    }
  }

  /** The snapshot table after a row of ticks, each of which adds one and cleans up. */
  function TableAfter(snaps: seq<Snapshot>, added: seq<Snapshot>): seq<Snapshot>
  {
    if added == [] then snaps
    else
      var s := added[|added| - 1];
      Recent(TableAfter(snaps, added[..|added| - 1]) + [s], s.time)
  }

  /** While the clock does not go back, nothing is dropped too early or kept too long: one clean-up at the end. */
  lemma {:induction false} TableIsTheLastDay(snaps: seq<Snapshot>, added: seq<Snapshot>)
    requires added != [] && forall i, j :: 0 <= i < j < |added| ==> added[i].time <= added[j].time
    ensures TableAfter(snaps, added) == Recent(snaps + added, added[|added| - 1].time)
    decreases |added|
  {
    var n := |added| - 1;
    var now := added[n].time;
    assert snaps + added == (snaps + added[..n]) + [added[n]];
    RecentConcat(snaps + added[..n], [added[n]], now);
    RecentConcat(TableAfter(snaps, added[..n]), [added[n]], now);
    if n > 0 {
      TableIsTheLastDay(snaps, added[..n]);
      RecentTwice(snaps + added[..n], added[n - 1].time, now);
    } else {
      assert snaps + added[..n] == snaps;
    }
  }

  // ---------- The dump as a map ----------

  /** The peer at `i` is the last with its key. */
  predicate IsLast(peers: seq<Peer>, i: nat)
  {
    i < |peers| && forall j :: i < j < |peers| ==> peers[j].publicKey != peers[i].publicKey
  }

  /** The dump maps each key of its peers to the last of them, and no other key. */
  lemma {:induction false} LastPeerWins(peers: seq<Peer>, key: string)
    ensures key in PeerByKey(peers)
       <==> exists i: nat :: IsLast(peers, i) && peers[i].publicKey == key
                             && key in PeerByKey(peers) && PeerByKey(peers)[key] == peers[i]
    ensures key !in PeerByKey(peers) ==> forall i :: 0 <= i < |peers| ==> peers[i].publicKey != key
  {
    if peers != [] {
      var n := |peers| - 1;
      if peers[n].publicKey == key {
        assert IsLast(peers, n);
      } else {
        LastPeerWins(peers[..n], key);
        forall i: nat | IsLast(peers[..n], i) && peers[i].publicKey == key ensures IsLast(peers, i) {
        }
        forall i: nat | IsLast(peers, i) && peers[i].publicKey == key ensures IsLast(peers[..n], i) {
        }
      }
    }
  }

  // ---------- One tick ----------

  /**
   * The enabled flag has no memory: a row in the dump is enabled exactly when no limited quota is
   * used up, whatever the flag was before.
   */
  lemma EnabledIsMemoryless(u: User, p: Peer, now: int, interval: int, flag: bool)
    requires interval > 0
    ensures var v := Sampled(u, p, now, interval);
            && (v.enabled <==> !Exhausted(v.days, v.traffic))
            && Sampled(u.(enabled := flag), p, now, interval) == v
  {
    var w := Sampled(u.(enabled := flag), p, now, interval);
    assert w.days == DaysAfter(u, now) && w.traffic == TrafficAfter(u, p);
    assert w.enabled == EnabledAfter(u.(enabled := flag), p, now);
  }

  /** A row that is not in the dump keeps its flag, counters, totals and quotas. */
  lemma AbsentRowKeeps(u: User, dump: Dump, now: int, interval: int)
    requires interval > 0 && u.publicKey !in dump
    ensures var v := TickRow(u, dump, now, interval);
            v == u.(connected := v.connected, endpoint := v.endpoint, lastHandshake := v.lastHandshake)
            && (u.publicKey != "" ==> !v.connected)
  {
  }
}
