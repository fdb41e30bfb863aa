/**
 * Who is connected, since when and from where: the connection columns over whole runs of ticks.
 */
module Presence {
  import opened Wrappers
  import opened Sync
  import opened DayQuota

  /** The tick finds a handshake of the peer that is less than two minutes old. */
  predicate Sees(key: string, t: TickInput)
  {
    key in t.dump && t.dump[key].handshake > 0 && t.now - t.dump[key].handshake < 120
  }

  lemma {:induction false} KeyStays(u: User, ticks: seq<TickInput>)
    requires Regulated(ticks)
    ensures RunRow(u, ticks).publicKey == u.publicKey
  {
    if ticks != [] {
      KeyStays(u, ticks[..|ticks| - 1]);
    }
  }

  /** Whatever went before, a row is connected exactly when the last tick sees its peer. */
  lemma ConnectedExactly(u: User, ticks: seq<TickInput>)
    requires u.publicKey != "" && Regulated(ticks) && ticks != []
    ensures RunRow(u, ticks).connected <==> Sees(u.publicKey, ticks[|ticks| - 1])
  {
    KeyStays(u, ticks[..|ticks| - 1]);
  }

  /** From tick `k` on every tick sees the peer, and the one before does not, if there is one. */
  predicate SeenSince(key: string, ticks: seq<TickInput>, k: nat)
    requires k < |ticks|
  {
    (forall j :: k <= j < |ticks| ==> Sees(key, ticks[j])) && (k > 0 ==> !Sees(key, ticks[k - 1]))
  }

  lemma FirstOfStreak(u: User, ticks: seq<TickInput>)
    requires u.publicKey != "" && !u.connected && Regulated(ticks) && ticks != []
    requires SeenSince(u.publicKey, ticks, |ticks| - 1)
    ensures RunRow(u, ticks).connectedAt == Some(ticks[|ticks| - 1].now)
  {
    var front := ticks[..|ticks| - 1];
    KeyStays(u, front);
    if front != [] {
      ConnectedExactly(u, front);
    }
  }

  /** The connection time of a connected row is the tick that began the present unbroken streak of sightings. */
  lemma {:induction false} ConnectedSince(u: User, ticks: seq<TickInput>, k: nat)
    requires u.publicKey != "" && !u.connected && Regulated(ticks) && k < |ticks|
    requires SeenSince(u.publicKey, ticks, k)
    ensures RunRow(u, ticks).connected && RunRow(u, ticks).connectedAt == Some(ticks[k].now)
    decreases |ticks|
  {
    var n := |ticks| - 1;
    ConnectedExactly(u, ticks);
    if k == n {
      FirstOfStreak(u, ticks);
    } else {
      ConnectedSince(u, ticks[..n], k);
      KeyStays(u, ticks[..n]);
    }
  }

  /**
   * Endpoint and handshake are those of the last dump when it has the peer; when it has not, a row that was
   * connected forgets both, and any other keeps what it had.
   */
  lemma LastDumpTells(u: User, ticks: seq<TickInput>, last: TickInput)
    requires u.publicKey != "" && Regulated(ticks) && last.interval > 0
    ensures var before, v := RunRow(u, ticks), RunRow(u, ticks + [last]);
            var known := (v.endpoint, v.lastHandshake);
            if u.publicKey in last.dump then
              var p := last.dump[u.publicKey];
              known == (p.endpoint, if p.handshake > 0 then Some(p.handshake) else None)
            else known == if before.connected then ("", None) else (before.endpoint, before.lastHandshake)
  {
    KeyStays(u, ticks);
    RunRowLast(u, ticks, last);
  }
}
