/**
 * Usage accounting over whole runs. A ghost kernel counts the true bytes of every peer while its own
 * counters grow, restart from zero or vanish; ticks sample them into the user rows.
 */
module Accounting {
  import opened Wrappers
  import Chart
  import Sync

  /**
   * A user row beside its kernel peer. `stale` says that the counters restarted after the row last
   * sampled them; `lostRx` and `lostTx` are the bytes that no sample will ever account for.
   */
  datatype Cell = Cell(row: Sync.User, present: bool, handshake: int, rx: nat, tx: nat,
                       trueRx: nat, trueTx: nat, lostRx: nat, lostTx: nat, stale: bool)

  type World = seq<Cell>

  datatype Event =
    | Grow(i: nat, drx: nat, dtx: nat, handshake: int)
    | Restart(i: nat)
    | RestartAll
    | Remove(i: nat)
    | Restore(i: nat)
    | Tick(now: int, interval: int)

  predicate DistinctKeys(w: World)
  {
    forall i, j :: 0 <= i < j < |w| ==> w[i].row.publicKey != w[j].row.publicKey
  }

  function PeerOf(c: Cell): Sync.Peer
  {
    Sync.Peer(c.row.publicKey, "", c.handshake, c.rx, c.tx)
  }

  /** The kernel dump: the peers that are present. */
  function DumpOf(w: World): Sync.Dump
  {
    if w == [] then map[]
    else
      var c := w[|w| - 1];
      if c.present then DumpOf(w[..|w| - 1])[c.row.publicKey := PeerOf(c)] else DumpOf(w[..|w| - 1])
  }

  predicate Enabled(w: World, e: Event)
  {
    match e
    case Grow(i, _, _, _) => i < |w| && w[i].present
    case Restart(i) => i < |w|
    case RestartAll => true
    case Remove(i) => i < |w|
    case Restore(i) => i < |w|
    case Tick(_, interval) => interval > 0
  }

  /** Bytes that passed since the row's last sample, or since the restart that came after it. */
  function UnsampledRx(c: Cell): int
  {
    if c.stale then c.rx else c.rx - c.row.rx
  }

  function UnsampledTx(c: Cell): int
  {
    if c.stale then c.tx else c.tx - c.row.tx
  }

  /** Counters back to zero, in both directions at once. */
  function Restarted(c: Cell, present: bool): Cell
    requires UnsampledRx(c) >= 0 && UnsampledTx(c) >= 0
  {
    c.(present := present, rx := 0, tx := 0, stale := true,
       lostRx := c.lostRx + UnsampledRx(c), lostTx := c.lostTx + UnsampledTx(c))
  }

  /** A restart stays unseen when both counters have caught up with the last sample. */
  predicate Unseen(c: Cell)
  {
    c.present && c.stale && !Sync.ResetDetected(c.row, PeerOf(c))
  }

  function Ticked(c: Cell, dump: Sync.Dump, now: int, interval: int): Cell
    requires interval > 0 && c.row.rx >= 0 && c.row.tx >= 0
  {
    var row := Sync.TickRow(c.row, dump, now, interval);
    if !c.present || c.row.publicKey == "" then c.(row := row)
    else c.(row := row, stale := false,
            lostRx := if Unseen(c) then c.lostRx + c.row.rx else c.lostRx,
            lostTx := if Unseen(c) then c.lostTx + c.row.tx else c.lostTx)
  }

  predicate Inv(c: Cell)
  {
    && c.row.publicKey != ""
    && c.row.rx >= 0 && c.row.tx >= 0 && c.row.totalRx >= 0 && c.row.totalTx >= 0
    && c.row.prevRx == c.row.rx && c.row.prevTx == c.row.tx
    && UnsampledRx(c) >= 0 && UnsampledTx(c) >= 0
    && (!c.present ==> c.stale && c.rx == 0 && c.tx == 0)
    && c.trueRx == c.row.totalRx + c.row.rx + c.lostRx + UnsampledRx(c)
    && c.trueTx == c.row.totalTx + c.row.tx + c.lostTx + UnsampledTx(c)
  }

  predicate AllInv(w: World)
  {
    DistinctKeys(w) && forall i :: 0 <= i < |w| ==> Inv(w[i])
  }

  function Perform(w: World, e: Event): (t: World)
    requires AllInv(w) && Enabled(w, e)
    ensures |t| == |w|
  {
    match e
    case Grow(i, drx, dtx, h) =>
      w[i := w[i].(rx := w[i].rx + drx, tx := w[i].tx + dtx, trueRx := w[i].trueRx + drx,
                   trueTx := w[i].trueTx + dtx, handshake := h)]
    case Restart(i) => w[i := Restarted(w[i], w[i].present)]
    case RestartAll => seq(|w|, i requires 0 <= i < |w| => Restarted(w[i], w[i].present))
    case Remove(i) => w[i := Restarted(w[i], false)]
    case Restore(i) => w[i := w[i].(present := true)]
    case Tick(now, interval) =>
      seq(|w|, i requires 0 <= i < |w| => Ticked(w[i], DumpOf(w), now, interval))
  }

  lemma {:induction false} DumpFinds(w: World, i: nat)
    requires DistinctKeys(w) && i < |w|
    ensures w[i].row.publicKey in DumpOf(w) <==> w[i].present
    ensures w[i].present ==> DumpOf(w)[w[i].row.publicKey] == PeerOf(w[i])
  {
    var n := |w| - 1;
    if i < n {
      DumpFinds(w[..n], i);
    } else {
      DumpMisses(w[..n], w[n].row.publicKey);
    }
  }

  lemma {:induction false} DumpMisses(w: World, key: string)
    requires forall i :: 0 <= i < |w| ==> w[i].row.publicKey != key
    ensures key !in DumpOf(w)
  {
    if w != [] {
      DumpMisses(w[..|w| - 1], key);
    }
  }

  lemma TickKeepsInv(w: World, i: nat, now: int, interval: int)
    requires AllInv(w) && i < |w| && interval > 0
    ensures Inv(Ticked(w[i], DumpOf(w), now, interval))
    ensures Ticked(w[i], DumpOf(w), now, interval).row.publicKey == w[i].row.publicKey
  {
    DumpFinds(w, i);
  }

  lemma StepKeepsInv(w: World, e: Event)
    requires AllInv(w) && Enabled(w, e)
    ensures AllInv(Perform(w, e))
    ensures forall i :: 0 <= i < |w| ==> Perform(w, e)[i].row.publicKey == w[i].row.publicKey
  {
    if e.Tick? {
      forall i | 0 <= i < |w|
        ensures Inv(Perform(w, e)[i]) && Perform(w, e)[i].row.publicKey == w[i].row.publicKey
      {
        TickKeepsInv(w, i, e.now, e.interval);
      }
    }
  }

  /** The rows of a world after a tick are those that `Store.SyncOnce` computes. */
  lemma TickIsSync(w: World, now: int, interval: int)
    requires AllInv(w) && interval > 0
    ensures RowsOf(Perform(w, Tick(now, interval))) == Sync.TickAll(RowsOf(w), DumpOf(w), now, interval)
  {
  }

  function RowsOf(w: World): seq<Sync.User>
  {
    seq(|w|, i requires 0 <= i < |w| => w[i].row)
  }

  // ---------- One step ----------

  function RecordedRx(c: Cell): int
  {
    c.row.totalRx + c.row.rx
  }

  function RecordedTx(c: Cell): int
  {
    c.row.totalTx + c.row.tx
  }

  /** The step restarts the counters of cell `i`. */
  predicate Restarts(e: Event, i: nat)
  {
    (e.Restart? && e.i == i) || e.RestartAll? || (e.Remove? && e.i == i)
  }

  /** Bytes passed before a restart and after the last sample, or a restart went unseen. */
  predicate LosesRx(w: World, e: Event, i: nat)
    requires i < |w|
  {
    (Restarts(e, i) && UnsampledRx(w[i]) != 0) || (e.Tick? && Unseen(w[i]) && w[i].row.rx != 0)
  }

  predicate LosesTx(w: World, e: Event, i: nat)
    requires i < |w|
  {
    (Restarts(e, i) && UnsampledTx(w[i]) != 0) || (e.Tick? && Unseen(w[i]) && w[i].row.tx != 0)
  }

  lemma StepOnCell(w: World, e: Event, i: nat)
    requires AllInv(w) && Enabled(w, e) && i < |w|
    ensures var c, d := w[i], Perform(w, e)[i];
            && RecordedRx(c) <= RecordedRx(d) && RecordedTx(c) <= RecordedTx(d)
            && c.lostRx <= d.lostRx && c.lostTx <= d.lostTx
            && (d.lostRx == c.lostRx <==> !LosesRx(w, e, i))
            && (d.lostTx == c.lostTx <==> !LosesTx(w, e, i))
  {
    if e.Tick? {
      DumpFinds(w, i);
    }
  }

  /** A tick leaves no byte unsampled on a present peer. */
  lemma TickSamples(w: World, e: Event, i: nat)
    requires AllInv(w) && Enabled(w, e) && e.Tick? && i < |w| && w[i].present
    ensures UnsampledRx(Perform(w, e)[i]) == 0 && UnsampledTx(Perform(w, e)[i]) == 0
  {
    DumpFinds(w, i);
  }

  // ---------- Whole runs ----------

  predicate Legal(w: World, events: seq<Event>)
    requires AllInv(w)
    decreases |events|
  {
    events == [] || (Enabled(w, events[0]) && (StepKeepsInv(w, events[0]); Legal(Perform(w, events[0]), events[1..])))
  }

  function After(w: World, events: seq<Event>): (t: World)
    requires AllInv(w) && Legal(w, events)
    ensures AllInv(t) && |t| == |w|
    decreases |events|
  {
    if events == [] then w
    else
      StepKeepsInv(w, events[0]);
      After(Perform(w, events[0]), events[1..])
  }

  /** Some step of the run loses received bytes of cell `i`. */
  predicate RunLosesRx(w: World, events: seq<Event>, i: nat)
    requires AllInv(w) && Legal(w, events) && i < |w|
    decreases |events|
  {
    events != []
    && (LosesRx(w, events[0], i)
        || (StepKeepsInv(w, events[0]); RunLosesRx(Perform(w, events[0]), events[1..], i)))
  }

  predicate RunLosesTx(w: World, events: seq<Event>, i: nat)
    requires AllInv(w) && Legal(w, events) && i < |w|
    decreases |events|
  {
    events != []
    && (LosesTx(w, events[0], i)
        || (StepKeepsInv(w, events[0]); RunLosesTx(Perform(w, events[0]), events[1..], i)))
  }

  lemma {:induction false} RunOnCell(w: World, events: seq<Event>, i: nat)
    requires AllInv(w) && Legal(w, events) && i < |w|
    ensures var c, d := w[i], After(w, events)[i];
            && RecordedRx(c) <= RecordedRx(d) && RecordedTx(c) <= RecordedTx(d)
            && c.lostRx <= d.lostRx && c.lostTx <= d.lostTx
            && (d.lostRx == c.lostRx <==> !RunLosesRx(w, events, i))
            && (d.lostTx == c.lostTx <==> !RunLosesTx(w, events, i))
    decreases |events|
  {
    if events != [] {
      StepKeepsInv(w, events[0]);
      StepOnCell(w, events[0], i);
      RunOnCell(Perform(w, events[0]), events[1..], i);
    }
  }

  /**
   * Usage over every run: the stored total plus the current counter never decreases and never
   * exceeds the true bytes. In a world that lost nothing before, and with nothing left to sample,
   * they are equal exactly when no step of the run lost bytes.
   */
  lemma UsageNeverInvented(w: World, events: seq<Event>, i: nat)
    requires AllInv(w) && Legal(w, events) && i < |w|
    ensures var c, d := w[i], After(w, events)[i];
            && RecordedRx(c) <= RecordedRx(d) <= d.trueRx
            && RecordedTx(c) <= RecordedTx(d) <= d.trueTx
            && (c.lostRx == 0 && UnsampledRx(d) == 0 ==>
                  (RecordedRx(d) == d.trueRx <==> !RunLosesRx(w, events, i)))
            && (c.lostTx == 0 && UnsampledTx(d) == 0 ==>
                  (RecordedTx(d) == d.trueTx <==> !RunLosesTx(w, events, i)))
  {
    RunOnCell(w, events, i);
  }

  // ---------- From new rows to a tick ----------

  /** A new row: nothing sampled and nothing lost, with the kernel's own counters for the true bytes. */
  predicate Fresh(c: Cell)
  {
    var u := c.row;
    u.publicKey != "" && u.rx == u.tx == u.prevRx == u.prevTx == u.totalRx == u.totalTx == 0
    && c == Cell(u, true, c.handshake, c.rx, c.tx, c.rx, c.tx, 0, 0, false)
  }

  lemma FreshCellIsInv(c: Cell)
    requires Fresh(c)
    ensures Inv(c)
  {
  }

  predicate FreshWorld(w: World)
  {
    DistinctKeys(w) && forall i :: 0 <= i < |w| ==> Fresh(w[i])
  }

  lemma FreshWorldIsInv(w: World)
    requires FreshWorld(w)
    ensures AllInv(w)
  {
    forall i | 0 <= i < |w| ensures Inv(w[i]) {
      FreshCellIsInv(w[i]);
    }
  }

  lemma {:induction false} AfterLast(w: World, events: seq<Event>, e: Event)
    requires AllInv(w) && Legal(w, events + [e])
    ensures Legal(w, events) && Enabled(After(w, events), e)
    ensures After(w, events + [e]) == Perform(After(w, events), e)
    decreases |events|
  {
    var all := events + [e];
    StepKeepsInv(w, all[0]);
    if events == [] {
      assert all == [e] && all[1..] == [];
    } else {
      assert all[1..] == events[1..] + [e];
      AfterLast(Perform(w, events[0]), events[1..], e);
    }
  }

  /**
   * From new rows, over every run that ends in a tick which sees the peer: the stored total plus the
   * current counter is the true number of bytes if and only if no step of the run lost any.
   */
  lemma TickedUsageIsExact(w: World, events: seq<Event>, now: int, interval: int, i: nat)
    requires FreshWorld(w) && i < |w|
    requires (FreshWorldIsInv(w);
              Legal(w, events + [Tick(now, interval)]) && Legal(w, events) && After(w, events)[i].present)
    ensures (FreshWorldIsInv(w);
             var all := events + [Tick(now, interval)];
             var d := After(w, all)[i];
             && (RecordedRx(d) == d.trueRx <==> !RunLosesRx(w, all, i))
             && (RecordedTx(d) == d.trueTx <==> !RunLosesTx(w, all, i)))
  {
    var e := Tick(now, interval);
    FreshWorldIsInv(w);
    assert Fresh(w[i]);
    AfterLast(w, events, e);
    TickSamples(After(w, events), e, i);
    UsageNeverInvented(w, events + [e], i);
  }

  // ---------- Traffic quota ----------

  function QuotaLeft(quota: int, used: int): int
  {
    if quota - used > 0 then quota - used else 0
  }

  /** A limited quota went down by the growth of recorded usage in both directions, no further than 0. */
  predicate QuotaFollows(u: Sync.User, v: Sync.User)
  {
    Sync.Recorded(u) <= Sync.Recorded(v)
    && (u.traffic.None? ==> v.traffic.None?)
    && (u.traffic.Some? && u.traffic.value >= 0 ==>
          v.traffic == Some(QuotaLeft(u.traffic.value, Sync.Recorded(v) - Sync.Recorded(u))))
  }

  lemma QuotaStep(w: World, e: Event, i: nat)
    requires AllInv(w) && Enabled(w, e) && i < |w|
    ensures QuotaFollows(w[i].row, Perform(w, e)[i].row)
  {
    if e.Tick? {
      DumpFinds(w, i);
    }
  }

  lemma QuotaChain(a: Sync.User, b: Sync.User, c: Sync.User)
    requires QuotaFollows(a, b) && QuotaFollows(b, c)
    ensures QuotaFollows(a, c)
  {
  }

  /**
   * Quota conservation: over every run the remaining traffic is the starting quota less the growth
   * of recorded usage of both directions, or 0 once that is used up.
   */
  lemma {:induction false} QuotaConserved(w: World, events: seq<Event>, i: nat)
    requires AllInv(w) && Legal(w, events) && i < |w|
    ensures QuotaFollows(w[i].row, After(w, events)[i].row)
    decreases |events|
  {
    if events != [] {
      StepKeepsInv(w, events[0]);
      var mid := Perform(w, events[0]);
      QuotaStep(w, events[0], i);
      QuotaConserved(mid, events[1..], i);
      QuotaChain(w[i].row, mid[i].row, After(mid, events[1..])[i].row);
    }
  }

  // ---------- Rates ----------

  /**
   * The two ways to notice a restart agree: the rate is 0 when the totals see one, and otherwise
   * the growth of recorded usage over the interval, rounded down.
   */
  lemma RateIsRecordedGrowth(w: World, now: int, interval: int, i: nat)
    requires AllInv(w) && interval > 0 && i < |w| && w[i].present
    ensures var c, d := w[i], Perform(w, Tick(now, interval))[i];
            if Sync.ResetDetected(c.row, PeerOf(c)) then d.row.rxRate == 0 && d.row.txRate == 0
            else d.row.rxRate == (RecordedRx(d) - RecordedRx(c)) / interval
                 && d.row.txRate == (RecordedTx(d) - RecordedTx(c)) / interval
  {
    DumpFinds(w, i);
  }

  lemma {:induction false} DumpCounts(w: World)
    ensures forall k :: k in DumpOf(w) ==> DumpOf(w)[k].rx >= 0 && DumpOf(w)[k].tx >= 0
  {
    if w != [] {
      DumpCounts(w[..|w| - 1]);
    }
  }

  /** A tick on any reachable world is one that the daily chart's bounds speak about. */
  lemma TickFeedsTheChart(w: World, now: int, time: int)
    requires AllInv(w)
    ensures Chart.SampleOk(Chart.Sample(RowsOf(w), DumpOf(w), now, time))
  {
    DumpCounts(w);
  }

  // ---------- The chart over whole runs ----------

  /** The ticks of a run, as the chart sees them. */
  function SamplesOf(w: World, events: seq<Event>): seq<Chart.Sample>
    requires AllInv(w) && Legal(w, events)
    decreases |events|
  {
    if events == [] then []
    else
      StepKeepsInv(w, events[0]);
      var rest := SamplesOf(Perform(w, events[0]), events[1..]);
      if events[0].Tick? then [Chart.Sample(RowsOf(w), DumpOf(w), events[0].now, events[0].now)] + rest else rest
  }

  predicate Every(events: seq<Event>, interval: int)
  {
    forall i :: 0 <= i < |events| && events[i].Tick? ==> events[i].interval == interval
  }

  lemma {:induction false} SamplesAreOk(w: World, events: seq<Event>)
    requires AllInv(w) && Legal(w, events)
    ensures forall i :: 0 <= i < |SamplesOf(w, events)| ==> Chart.SampleOk(SamplesOf(w, events)[i])
    decreases |events|
  {
    if events != [] {
      StepKeepsInv(w, events[0]);
      SamplesAreOk(Perform(w, events[0]), events[1..]);
      if events[0].Tick? {
        TickFeedsTheChart(w, events[0].now, events[0].now);
      }
    }
  }

  lemma {:induction false} GrowthFirst(s: Chart.Sample, rest: seq<Chart.Sample>, interval: int)
    requires interval > 0
    ensures Chart.TotalGrowthTx([s] + rest, interval)
         == Chart.GrowthTx(s, interval) + Chart.TotalGrowthTx(rest, interval)
    ensures Chart.TotalGrowthRx([s] + rest, interval)
         == Chart.GrowthRx(s, interval) + Chart.TotalGrowthRx(rest, interval)
    decreases |rest|
  {
    var all := [s] + rest;
    if rest == [] {
      assert all == [s] && [s][..0] == [];
      assert Chart.TotalGrowthTx([], interval) == 0 && Chart.TotalGrowthRx([], interval) == 0;
    } else {
      var n := |rest| - 1;
      GrowthFirst(s, rest[..n], interval);
      assert all[..n + 1] == [s] + rest[..n] && all[n + 1] == rest[n];
    }
  }

  /** Steps between ticks change no row. */
  lemma RowsBetweenTicks(w: World, e: Event)
    requires AllInv(w) && Enabled(w, e) && !e.Tick?
    ensures RowsOf(Perform(w, e)) == RowsOf(w)
  {
  }

  /** What the ticks of a run recorded is what the stored usage grew by. */
  lemma {:induction false} GrowthOfRun(w: World, events: seq<Event>, interval: int)
    requires AllInv(w) && Legal(w, events) && Every(events, interval) && interval > 0
    ensures var t := After(w, events);
            && Chart.TotalGrowthTx(SamplesOf(w, events), interval)
               == Chart.SumTx(RowsOf(t)) - Chart.SumTx(RowsOf(w))
            && Chart.TotalGrowthRx(SamplesOf(w, events), interval)
               == Chart.SumRx(RowsOf(t)) - Chart.SumRx(RowsOf(w))
    decreases |events|
  {
    if events != [] {
      var e, next := events[0], Perform(w, events[0]);
      StepKeepsInv(w, e);
      GrowthOfRun(next, events[1..], interval);
      if e.Tick? {
        TickIsSync(w, e.now, e.interval);
        GrowthFirst(Chart.Sample(RowsOf(w), DumpOf(w), e.now, e.now), SamplesOf(next, events[1..]), interval);
      } else {
        RowsBetweenTicks(w, e);
      }
    }
  }

  function TrueTx(w: World): int
  {
    if w == [] then 0 else TrueTx(w[..|w| - 1]) + w[|w| - 1].trueTx
  }

  function TrueRx(w: World): int
  {
    if w == [] then 0 else TrueRx(w[..|w| - 1]) + w[|w| - 1].trueRx
  }

  lemma {:induction false} RecordedIsTrue(w: World)
    requires forall i :: 0 <= i < |w| ==> Inv(w[i])
    ensures Chart.SumTx(RowsOf(w)) <= TrueTx(w) && Chart.SumRx(RowsOf(w)) <= TrueRx(w)
  {
    if w != [] {
      var n := |w| - 1;
      RecordedIsTrue(w[..n]);
      assert RowsOf(w)[..n] == RowsOf(w[..n]);
    }
  }

  lemma {:induction false} NothingRecorded(w: World)
    requires forall i :: 0 <= i < |w| ==> Fresh(w[i])
    ensures Chart.SumTx(RowsOf(w)) == 0 && Chart.SumRx(RowsOf(w)) == 0
  {
    if w != [] {
      var n := |w| - 1;
      NothingRecorded(w[..n]);
      assert RowsOf(w)[..n] == RowsOf(w[..n]);
    }
  }

  /**
   * From new rows, over every run of traffic, resets, removals and ticks: the bytes that the chart shows in
   * each direction are at most twice the bytes that truly passed.
   */
  lemma ChartNeverInvents(w: World, events: seq<Event>, interval: int)
    requires FreshWorld(w) && (FreshWorldIsInv(w); Legal(w, events)) && Every(events, interval) && interval > 0
    ensures (FreshWorldIsInv(w);
             var snaps := Chart.SnapshotsOf(SamplesOf(w, events), interval);
             && Chart.TotalDownload(snaps, interval) <= 2 * TrueTx(After(w, events))
             && Chart.TotalUpload(snaps, interval) <= 2 * TrueRx(After(w, events)))
  {
    FreshWorldIsInv(w);
    var samples := SamplesOf(w, events);
    SamplesAreOk(w, events);
    Chart.ChartIsCovered(samples, interval);
    Chart.FrontGrowsLess(samples, interval);
    GrowthOfRun(w, events, interval);
    RecordedIsTrue(After(w, events));
    NothingRecorded(w);
  }
}
