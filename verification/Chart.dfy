/**
 * The daily chart of `BandwidthHistoryAPI` in `internal/app/handlers.go`: snapshot rates integrated
 * over time, and how the result relates to the bytes that the ticks recorded.
 */
module Chart {
  import opened Wrappers
  import opened Sync

  // ---------- The integration loop ----------

  /** The seconds that snapshot `a` stands for: the gap to the next one, clamped after a pause. */
  function Span(a: Snapshot, b: Snapshot, interval: int): (sec: int)
    requires interval > 0
    ensures 0 <= sec <= 2 * interval
  {
    var dt := b.time - a.time;
    if dt <= 0 then 0 else if dt > 2 * interval then interval else dt
  }

  /** Download bytes charged to `day` by all but the last snapshot. */
  function DayDownload(snaps: seq<Snapshot>, interval: int, dayOf: int -> int, day: int): int
    requires interval > 0
  {
    if |snaps| < 2 then 0
    else
      var n := |snaps| - 2;
      DayDownload(snaps[..|snaps| - 1], interval, dayOf, day)
      + if dayOf(snaps[n].time) == day then snaps[n].download * Span(snaps[n], snaps[n + 1], interval) else 0
  }

  function DayUpload(snaps: seq<Snapshot>, interval: int, dayOf: int -> int, day: int): int
    requires interval > 0
  {
    if |snaps| < 2 then 0
    else
      var n := |snaps| - 2;
      DayUpload(snaps[..|snaps| - 1], interval, dayOf, day)
      + if dayOf(snaps[n].time) == day then snaps[n].upload * Span(snaps[n], snaps[n + 1], interval) else 0
  }

  function Get(m: map<int, int>, k: int): int
  {
    if k in m then m[k] else 0
  }

  lemma DayNext(snaps: seq<Snapshot>, i: nat, interval: int, dayOf: int -> int, day: int)
    requires interval > 0 && i + 1 < |snaps|
    ensures var a, sec := snaps[i], Span(snaps[i], snaps[i + 1], interval);
            && DayDownload(snaps[..i + 2], interval, dayOf, day)
               == DayDownload(snaps[..i + 1], interval, dayOf, day)
                  + (if dayOf(a.time) == day then a.download * sec else 0)
            && DayUpload(snaps[..i + 2], interval, dayOf, day)
               == DayUpload(snaps[..i + 1], interval, dayOf, day)
                  + (if dayOf(a.time) == day then a.upload * sec else 0)
  {
    assert snaps[..i + 2][..i + 1] == snaps[..i + 1];
  }

  lemma ZeroProduct(x: int, zero: int)
    requires zero == 0
    ensures x * zero == 0
  {
  }

  /** The two maps hold the bytes of every day. */
  ghost predicate DaysOf(byDayD: map<int, int>, byDayU: map<int, int>, snaps: seq<Snapshot>, interval: int,
                         dayOf: int -> int)
    requires interval > 0
  {
    forall day :: Get(byDayD, day) == DayDownload(snaps, interval, dayOf, day)
                  && Get(byDayU, day) == DayUpload(snaps, interval, dayOf, day)
  }

  method Integrate(snaps: seq<Snapshot>, interval: int, dayOf: int -> int)
    returns (byDayD: map<int, int>, byDayU: map<int, int>)
    requires interval > 0
    ensures DaysOf(byDayD, byDayU, snaps, interval, dayOf)
  {
    byDayD, byDayU := map[], map[];
    if |snaps| == 0 {
      return;
    }
    for i := 0 to |snaps| - 1
      invariant DaysOf(byDayD, byDayU, snaps[..i + 1], interval, dayOf)
    {
      var a, b := snaps[i], snaps[i + 1];
      ghost var done, next := snaps[..i + 1], snaps[..i + 2];
      forall day
        ensures DayDownload(next, interval, dayOf, day)
             == DayDownload(done, interval, dayOf, day)
                + (if dayOf(a.time) == day then a.download * Span(a, b, interval) else 0)
        ensures DayUpload(next, interval, dayOf, day)
             == DayUpload(done, interval, dayOf, day)
                + (if dayOf(a.time) == day then a.upload * Span(a, b, interval) else 0)
      {
        DayNext(snaps, i, interval, dayOf, day);
      }
      var dt := b.time - a.time;
      if dt <= 0 {
        ZeroProduct(a.download, Span(a, b, interval));
        ZeroProduct(a.upload, Span(a, b, interval));
        continue;
      }
      if dt > 2 * interval {
        dt := interval;
      }
      var day := dayOf(a.time);
      byDayD := byDayD[day := Get(byDayD, day) + a.download * dt];
      byDayU := byDayU[day := Get(byDayU, day) + a.upload * dt];
    }
    assert snaps[..|snaps|] == snaps;
  }

  // ---------- What is charged, in times and rates ----------

  /** Bytes of one snapshot until the next: nothing for a gap of at most 0, and one interval after a pause. */
  function Charged(rate: int, gap: int, interval: int): int
  {
    if gap <= 0 then 0 else if gap <= 2 * interval then rate * gap else rate * interval
  }

  /** A snapshot charges the day it was taken on, and no other, once the next one is there. */
  lemma ChargedToItsDay(snaps: seq<Snapshot>, next: Snapshot, interval: int, dayOf: int -> int, day: int)
    requires interval > 0
    ensures var all := snaps + [next];
            if snaps == [] then
              DayDownload(all, interval, dayOf, day) == 0 && DayUpload(all, interval, dayOf, day) == 0
            else
              var last := snaps[|snaps| - 1];
              var gap := next.time - last.time;
              && DayDownload(all, interval, dayOf, day) == DayDownload(snaps, interval, dayOf, day)
                 + (if dayOf(last.time) == day then Charged(last.download, gap, interval) else 0)
              && DayUpload(all, interval, dayOf, day) == DayUpload(snaps, interval, dayOf, day)
                 + (if dayOf(last.time) == day then Charged(last.upload, gap, interval) else 0)
  {
    var all := snaps + [next];
    if snaps != [] {
      var last := snaps[|snaps| - 1];
      SpanCharges(last.download, last, next, interval);
      SpanCharges(last.upload, last, next, interval);
      DayNext(all, |snaps| - 1, interval, dayOf, day);
      assert all[..|snaps| + 1] == all && all[..|snaps|] == snaps;
    }
  }

  lemma SpanCharges(rate: int, a: Snapshot, b: Snapshot, interval: int)
    requires interval > 0
    ensures rate * Span(a, b, interval) == Charged(rate, b.time - a.time, interval)
  {
    ZeroProduct(rate, 0);
  }

  /** Every snapshot one interval after the one before it. */
  predicate Steady(snaps: seq<Snapshot>, interval: int)
  {
    forall i :: 0 <= i < |snaps| - 1 ==> snaps[i + 1].time - snaps[i].time == interval
  }

  /** The rates of all snapshots. */
  function RateSum(snaps: seq<Snapshot>, up: bool): int
  {
    if snaps == [] then 0
    else
      var last := snaps[|snaps| - 1];
      RateSum(snaps[..|snaps| - 1], up) + if up then last.upload else last.download
  }

  /** With ticks on time the total is the interval times the rates of all snapshots but the last. */
  lemma {:induction false} SteadyTotals(snaps: seq<Snapshot>, interval: int)
    requires interval > 0 && snaps != [] && Steady(snaps, interval)
    ensures TotalDownload(snaps, interval) == RateSum(snaps[..|snaps| - 1], false) * interval
    ensures TotalUpload(snaps, interval) == RateSum(snaps[..|snaps| - 1], true) * interval
    decreases |snaps|
  {
    if |snaps| == 1 {
      assert snaps[..0] == [];
    } else {
      var n := |snaps| - 2;
      var front := snaps[..n + 1];
      SteadyTotals(front, interval);
      assert snaps[n + 1].time - snaps[n].time == interval;
      assert front[..n] == snaps[..n] && snaps[..n + 1][..n] == snaps[..n];
      Distribute(RateSum(snaps[..n], false), snaps[n].download, interval);
      Distribute(RateSum(snaps[..n], true), snaps[n].upload, interval);
    }
  }

  /** With ticks on time the bars of each direction show exactly the rates times the interval. */
  lemma SteadyBars(snaps: seq<Snapshot>, up: bool, interval: int, dayOf: int -> int, days: nat)
    requires interval > 0 && snaps != [] && Steady(snaps, interval)
    requires forall i :: 0 <= i < |snaps| ==> 1 <= dayOf(snaps[i].time) <= days
    ensures SumDays(snaps, up, interval, dayOf, days) == RateSum(snaps[..|snaps| - 1], up) * interval
  {
    BarsAddUp(snaps, up, interval, dayOf, days);
    SteadyTotals(snaps, interval);
  }

  // ---------- Ticks behind the snapshots ----------

  /** One tick: the rows it found, the dump it read, its clock, and the time its snapshot carries. */
  datatype Sample = Sample(before: seq<User>, dump: Dump, now: int, time: int)

  function AfterTick(s: Sample, interval: int): seq<User>
    requires interval > 0
  {
    TickAll(s.before, s.dump, s.now, interval)
  }

  function SnapshotOf(s: Sample, interval: int): Snapshot
    requires interval > 0
  {
    Snapshot(DownloadRate(AfterTick(s, interval)), UploadRate(AfterTick(s, interval)), s.time)
  }

  function SnapshotsOf(samples: seq<Sample>, interval: int): (snaps: seq<Snapshot>)
    requires interval > 0
    ensures |snaps| == |samples|
    ensures forall i :: 0 <= i < |samples| ==> snaps[i] == SnapshotOf(samples[i], interval)
  {
    seq(|samples|, i requires 0 <= i < |samples| => SnapshotOf(samples[i], interval))
  }

  /** Rows as ticks leave them: both kinds of stored counters agree, and none is negative. */
  predicate RowOk(u: User)
  {
    u.prevRx == u.rx && u.prevTx == u.tx && u.rx >= 0 && u.tx >= 0
  }

  predicate SampleOk(s: Sample)
  {
    (forall i :: 0 <= i < |s.before| ==> RowOk(s.before[i]))
    && forall k :: k in s.dump ==> s.dump[k].rx >= 0 && s.dump[k].tx >= 0
  }

  function SumTx(users: seq<User>): int
  {
    if users == [] then 0 else SumTx(users[..|users| - 1]) + users[|users| - 1].totalTx + users[|users| - 1].tx
  }

  function SumRx(users: seq<User>): int
  {
    if users == [] then 0 else SumRx(users[..|users| - 1]) + users[|users| - 1].totalRx + users[|users| - 1].rx
  }

  /** Recorded growth of the tick in the download direction, which is what the server sent. */
  function GrowthTx(s: Sample, interval: int): int
    requires interval > 0
  {
    SumTx(AfterTick(s, interval)) - SumTx(s.before)
  }

  function GrowthRx(s: Sample, interval: int): int
    requires interval > 0
  {
    SumRx(AfterTick(s, interval)) - SumRx(s.before)
  }

  lemma FloorTimes(x: int, d: int)
    requires x >= 0 && d > 0
    ensures 0 <= x / d && x / d * d <= x
  {
  }

  /** The rate a row contributes is covered by what the tick recorded for it. */
  lemma RowRateIsCovered(u: User, dump: Dump, now: int, interval: int)
    requires interval > 0 && RowOk(u) && forall k :: k in dump ==> dump[k].rx >= 0 && dump[k].tx >= 0
    ensures var v := TickRow(u, dump, now, interval);
            var down, up := if Counts(v) then v.txRate else 0, if Counts(v) then v.rxRate else 0;
            && 0 <= down && down * interval <= v.totalTx + v.tx - (u.totalTx + u.tx)
            && 0 <= up && up * interval <= v.totalRx + v.rx - (u.totalRx + u.rx)
  {
    if u.publicKey != "" && u.publicKey in dump {
      var p := dump[u.publicKey];
      if !ResetDetected(u, p) {
        FloorTimes(p.tx - u.tx, interval);
        FloorTimes(p.rx - u.rx, interval);
      }
    }
  }

  lemma {:induction false} SumIsCovered(users: seq<User>, dump: Dump, now: int, interval: int)
    requires interval > 0 && forall k :: k in dump ==> dump[k].rx >= 0 && dump[k].tx >= 0
    requires forall i :: 0 <= i < |users| ==> RowOk(users[i])
    ensures var after := TickAll(users, dump, now, interval);
            && 0 <= DownloadRate(after) && DownloadRate(after) * interval <= SumTx(after) - SumTx(users)
            && 0 <= UploadRate(after) && UploadRate(after) * interval <= SumRx(after) - SumRx(users)
  {
    if users != [] {
      var n := |users| - 1;
      var after := TickAll(users, dump, now, interval);
      SumIsCovered(users[..n], dump, now, interval);
      RowRateIsCovered(users[n], dump, now, interval);
      assert after[..n] == TickAll(users[..n], dump, now, interval);
      var down, up := if Counts(after[n]) then after[n].txRate else 0, if Counts(after[n]) then after[n].rxRate else 0;
      Distribute(DownloadRate(after[..n]), down, interval);
      Distribute(UploadRate(after[..n]), up, interval);
    }
  }

  lemma Distribute(a: int, b: int, c: int)
    ensures (a + b) * c == a * c + b * c
  {
  }

  lemma ScaleUp(rate: int, sec: int, interval: int, factor: int, bound: int)
    requires 0 <= rate && 0 <= sec <= factor * interval && rate * interval <= bound && factor >= 0
    ensures rate * sec <= factor * bound
  {
    assert rate * sec <= rate * (factor * interval);
    assert rate * (factor * interval) == factor * (rate * interval);
    assert factor * (rate * interval) <= factor * bound;
  }

  // ---------- Totals ----------

  /** Download bytes over all days: every snapshot but the last, times its span. */
  function TotalDownload(snaps: seq<Snapshot>, interval: int): int
    requires interval > 0
  {
    if |snaps| < 2 then 0
    else
      var n := |snaps| - 2;
      TotalDownload(snaps[..|snaps| - 1], interval) + snaps[n].download * Span(snaps[n], snaps[n + 1], interval)
  }

  function TotalUpload(snaps: seq<Snapshot>, interval: int): int
    requires interval > 0
  {
    if |snaps| < 2 then 0
    else
      var n := |snaps| - 2;
      TotalUpload(snaps[..|snaps| - 1], interval) + snaps[n].upload * Span(snaps[n], snaps[n + 1], interval)
  }

  function TotalGrowthTx(samples: seq<Sample>, interval: int): int
    requires interval > 0
  {
    if samples == [] then 0
    else TotalGrowthTx(samples[..|samples| - 1], interval) + GrowthTx(samples[|samples| - 1], interval)
  }

  function TotalGrowthRx(samples: seq<Sample>, interval: int): int
    requires interval > 0
  {
    if samples == [] then 0
    else TotalGrowthRx(samples[..|samples| - 1], interval) + GrowthRx(samples[|samples| - 1], interval)
  }

  predicate Stretched(a: Sample, b: Sample, interval: int)
  {
    interval < b.time - a.time <= 2 * interval
  }

  /** `bytes` is at most twice `growth`, and at most `growth` itself unless a gap was stretched. */
  predicate Covered(bytes: int, growth: int, stretched: bool)
  {
    0 <= growth && bytes <= 2 * growth && (stretched || bytes <= growth)
  }

  lemma SpanIsCovered(rate: int, growth: int, a: Sample, b: Sample, interval: int)
    requires interval > 0 && 0 <= rate && rate * interval <= growth
    ensures Covered(rate * Span(SnapshotOf(a, interval), SnapshotOf(b, interval), interval), growth,
                    Stretched(a, b, interval))
  {
    var sec := Span(SnapshotOf(a, interval), SnapshotOf(b, interval), interval);
    ScaleUp(rate, 0, interval, 1, growth);
    ScaleUp(rate, sec, interval, 2, growth);
    if !Stretched(a, b, interval) {
      ScaleUp(rate, sec, interval, 1, growth);
    }
  }

  /** One snapshot integrated over its span. */
  lemma SampleIsCovered(a: Sample, b: Sample, interval: int)
    requires interval > 0 && SampleOk(a)
    ensures var snap, sec := SnapshotOf(a, interval), Span(SnapshotOf(a, interval), SnapshotOf(b, interval), interval);
            && Covered(snap.download * sec, GrowthTx(a, interval), Stretched(a, b, interval))
            && Covered(snap.upload * sec, GrowthRx(a, interval), Stretched(a, b, interval))
  {
    SumIsCovered(a.before, a.dump, a.now, interval);
    SpanIsCovered(SnapshotOf(a, interval).download, GrowthTx(a, interval), a, b, interval);
    SpanIsCovered(SnapshotOf(a, interval).upload, GrowthRx(a, interval), a, b, interval);
  }

  /** The last tick's growth is not negative either. */
  lemma FrontGrowsLess(samples: seq<Sample>, interval: int)
    requires interval > 0 && forall i :: 0 <= i < |samples| ==> SampleOk(samples[i])
    ensures TotalGrowthTx(Front(samples), interval) <= TotalGrowthTx(samples, interval)
    ensures TotalGrowthRx(Front(samples), interval) <= TotalGrowthRx(samples, interval)
  {
    if samples != [] {
      SampleIsCovered(samples[|samples| - 1], samples[|samples| - 1], interval);
    }
  }

  predicate SomeStretched(samples: seq<Sample>, interval: int)
  {
    exists i :: 0 <= i < |samples| - 1 && Stretched(samples[i], samples[i + 1], interval)
  }

  /** The chart's totals grow by the next snapshot's share. */
  lemma TotalsNext(samples: seq<Sample>, interval: int)
    requires interval > 0 && |samples| > 1
    ensures var n := |samples| - 2;
            var sec := Span(SnapshotOf(samples[n], interval), SnapshotOf(samples[n + 1], interval), interval);
            && TotalDownload(SnapshotsOf(samples, interval), interval)
               == TotalDownload(SnapshotsOf(samples[..n + 1], interval), interval)
                  + SnapshotOf(samples[n], interval).download * sec
            && TotalUpload(SnapshotsOf(samples, interval), interval)
               == TotalUpload(SnapshotsOf(samples[..n + 1], interval), interval)
                  + SnapshotOf(samples[n], interval).upload * sec
  {
    var n := |samples| - 2;
    assert SnapshotsOf(samples, interval)[..n + 1] == SnapshotsOf(samples[..n + 1], interval);
  }

  /** All samples but the last, whose snapshot has no gap after it yet. */
  function Front(samples: seq<Sample>): seq<Sample>
  {
    if samples == [] then [] else samples[..|samples| - 1]
  }

  lemma GrowthNext(samples: seq<Sample>, interval: int)
    requires interval > 0 && |samples| > 1
    ensures var n := |samples| - 2;
            && TotalGrowthTx(Front(samples), interval)
               == TotalGrowthTx(Front(samples[..n + 1]), interval) + GrowthTx(samples[n], interval)
            && TotalGrowthRx(Front(samples), interval)
               == TotalGrowthRx(Front(samples[..n + 1]), interval) + GrowthRx(samples[n], interval)
  {
    var n := |samples| - 2;
    assert Front(samples)[..n] == Front(samples[..n + 1]);
  }

  /** What the next snapshot adds to both totals is covered by what its tick recorded. */
  lemma ShareIsCovered(samples: seq<Sample>, interval: int)
    requires interval > 0 && |samples| > 1 && SampleOk(samples[|samples| - 2])
    ensures var n := |samples| - 2;
            var rest := samples[..n + 1];
            var stretched := Stretched(samples[n], samples[n + 1], interval);
            && Covered(TotalDownload(SnapshotsOf(samples, interval), interval)
                       - TotalDownload(SnapshotsOf(rest, interval), interval),
                       TotalGrowthTx(Front(samples), interval) - TotalGrowthTx(Front(rest), interval), stretched)
            && Covered(TotalUpload(SnapshotsOf(samples, interval), interval)
                       - TotalUpload(SnapshotsOf(rest, interval), interval),
                       TotalGrowthRx(Front(samples), interval) - TotalGrowthRx(Front(rest), interval), stretched)
  {
    var n := |samples| - 2;
    SampleIsCovered(samples[n], samples[n + 1], interval);
    TotalsNext(samples, interval);
    GrowthNext(samples, interval);
  }

  /**
   * The chart never invents traffic: for ticks on any tables and with any spacing of the snapshots,
   * the integrated bytes of each direction are at most twice the bytes the ticks recorded, and at most
   * those bytes when no gap lies strictly above one interval and up to two.
   */
  lemma {:induction false} ChartIsCovered(samples: seq<Sample>, interval: int)
    requires interval > 0 && forall i :: 0 <= i < |samples| ==> SampleOk(samples[i])
    ensures var snaps, stretched := SnapshotsOf(samples, interval), SomeStretched(samples, interval);
            && Covered(TotalDownload(snaps, interval), TotalGrowthTx(Front(samples), interval), stretched)
            && Covered(TotalUpload(snaps, interval), TotalGrowthRx(Front(samples), interval), stretched)
  {
    if |samples| > 1 {
      ChartIsCovered(samples[..|samples| - 1], interval);
      ShareIsCovered(samples, interval);
      StretchedNext(samples, interval);
    }
  }

  lemma StretchedNext(samples: seq<Sample>, interval: int)
    requires |samples| > 1
    ensures var n := |samples| - 2;
            SomeStretched(samples[..n + 1], interval) || Stretched(samples[n], samples[n + 1], interval)
            ==> SomeStretched(samples, interval)
  {
    var n := |samples| - 2;
    if SomeStretched(samples[..n + 1], interval) {
      var i :| 0 <= i < n && Stretched(samples[..n + 1][i], samples[..n + 1][i + 1], interval);
      assert Stretched(samples[i], samples[i + 1], interval);
    }
  }

  // ---------- Exactly which spacings are covered ----------

  /** Each tick works on the rows that the one before it left. */
  predicate Consecutive(samples: seq<Sample>, interval: int)
    requires interval > 0
  {
    forall i :: 0 <= i < |samples| - 1 ==> samples[i + 1].before == AfterTick(samples[i], interval)
  }

  predicate Timed(samples: seq<Sample>, times: seq<int>)
  {
    |samples| == |times| && forall i :: 0 <= i < |times| ==> samples[i].time == times[i]
  }

  /** A gap strictly above one interval and up to two. */
  predicate StretchedGap(times: seq<int>, i: nat, interval: int)
    requires i + 1 < |times|
  {
    interval < times[i + 1] - times[i] <= 2 * interval
  }

  /** Ticks in a row with snapshots at these times. */
  predicate Possible(samples: seq<Sample>, times: seq<int>, interval: int)
    requires interval > 0
  {
    Timed(samples, times) && Consecutive(samples, interval)
    && forall i :: 0 <= i < |samples| ==> SampleOk(samples[i])
  }

  predicate ChartsNoMore(samples: seq<Sample>, interval: int)
    requires interval > 0
  {
    TotalDownload(SnapshotsOf(samples, interval), interval) <= TotalGrowthTx(Front(samples), interval)
    && TotalUpload(SnapshotsOf(samples, interval), interval) <= TotalGrowthRx(Front(samples), interval)
  }

  /** Whatever the traffic, the chart shows no more than the ticks record. */
  ghost predicate AllCovered(times: seq<int>, interval: int)
    requires interval > 0
  {
    forall samples :: Possible(samples, times, interval) ==> ChartsNoMore(samples, interval)
  }

  predicate NoStretchedGap(times: seq<int>, interval: int)
  {
    forall i: nat :: i + 1 < |times| ==> !StretchedGap(times, i, interval)
  }

  lemma SumOfOne(users: seq<User>)
    requires |users| == 1
    ensures SumTx(users) == users[0].totalTx + users[0].tx
    ensures DownloadRate(users) == if Counts(users[0]) then users[0].txRate else 0
  {
    assert users[..0] == [];
  }

  /** A user before, during and after one tick that finds `bytes` sent. */
  function Quiet(): User
  {
    User("k", false, None, "", None, 0, 0, 0, 0, 0, 0, 0, 0, None, None, Never, true)
  }

  function Burst(bytes: int): Dump
  {
    map["k" := Peer("k", "", 100, 0, bytes)]
  }

  function Busy(interval: int): User
    requires interval > 0
  {
    TickRow(Quiet(), Burst(interval), 100, interval)
  }

  lemma BusyRow(interval: int)
    requires interval > 0
    ensures var v := Busy(interval);
            Counts(v) && v.txRate == 1 && v.totalTx == 0 && v.tx == interval && v.connected && RowOk(v)
            && v.publicKey == "k"
  {
    var p := Burst(interval)["k"];
    assert p == Peer("k", "", 100, 0, interval);
  }

  /** The row that tick `j` finds when the bytes are sent before tick `i`. */
  function RowAt(j: nat, i: nat, interval: int): User
    requires interval > 0
  {
    if j <= i then Quiet() else if j == i + 1 then Busy(interval) else Missing(Busy(interval))
  }

  function OneBurst(times: seq<int>, i: nat, interval: int): (samples: seq<Sample>)
    requires interval > 0
    ensures |samples| == |times|
  {
    seq(|times|, j requires 0 <= j < |times| =>
      Sample([RowAt(j, i, interval)], if j == i then Burst(interval) else map[], 100, times[j]))
  }

  /** The rows go on from tick to tick, and only tick `i` records and charts anything. */
  lemma BurstSample(times: seq<int>, i: nat, interval: int, j: nat)
    requires interval > 0 && j < |times|
    ensures var s := OneBurst(times, i, interval)[j];
            && SampleOk(s) && AfterTick(s, interval) == [RowAt(j + 1, i, interval)]
            && SnapshotOf(s, interval).download == (if j == i then 1 else 0)
            && GrowthTx(s, interval) == if j == i then interval else 0
  {
    var s := OneBurst(times, i, interval)[j];
    BusyRow(interval);
    assert AfterTick(s, interval) == [TickRow(RowAt(j, i, interval), s.dump, 100, interval)];
    SumOfOne(AfterTick(s, interval));
    SumOfOne(s.before);
  }

  /** Totals over samples of which only the one at `i` has a rate. */
  lemma {:induction false} LoneSample(samples: seq<Sample>, interval: int, i: nat, rate: int, growth: int)
    requires interval > 0 && i + 1 < |samples|
    requires forall j :: 0 <= j < |samples| ==>
               SnapshotOf(samples[j], interval).download == (if j == i then rate else 0)
               && GrowthTx(samples[j], interval) == if j == i then growth else 0
    ensures TotalDownload(SnapshotsOf(samples, interval), interval)
         == rate * Span(SnapshotOf(samples[i], interval), SnapshotOf(samples[i + 1], interval), interval)
    ensures TotalGrowthTx(Front(samples), interval) == growth
    decreases |samples|
  {
    var n := |samples| - 2;
    TotalsNext(samples, interval);
    GrowthNext(samples, interval);
    if i < n {
      LoneSample(samples[..n + 1], interval, i, rate, growth);
    } else {
      NoSample(samples[..n + 1], interval);
    }
  }

  lemma {:induction false} NoSample(samples: seq<Sample>, interval: int)
    requires interval > 0
    requires forall j :: 0 <= j < |samples| - 1 ==>
               SnapshotOf(samples[j], interval).download == 0 && GrowthTx(samples[j], interval) == 0
    ensures TotalDownload(SnapshotsOf(samples, interval), interval) == 0
    ensures TotalGrowthTx(Front(samples), interval) == 0
    decreases |samples|
  {
    if |samples| > 1 {
      TotalsNext(samples, interval);
      GrowthNext(samples, interval);
      NoSample(samples[..|samples| - 1], interval);
    }
  }

  lemma BurstIsPossible(times: seq<int>, i: nat, interval: int)
    requires interval > 0
    ensures Possible(OneBurst(times, i, interval), times, interval)
  {
    var samples := OneBurst(times, i, interval);
    forall j: nat | j < |times|
      ensures SampleOk(samples[j]) && AfterTick(samples[j], interval) == [RowAt(j + 1, i, interval)]
    {
      BurstSample(times, i, interval, j);
    }
  }

  /** In a stretched gap a burst is charged for the whole gap: up to twice what was recorded. */
  lemma StretchedGapOvercharges(times: seq<int>, i: nat, interval: int)
    requires interval > 0 && i + 1 < |times| && StretchedGap(times, i, interval)
    ensures var samples := OneBurst(times, i, interval);
            && TotalGrowthTx(Front(samples), interval) == interval
            && TotalDownload(SnapshotsOf(samples, interval), interval) == times[i + 1] - times[i]
  {
    var samples := OneBurst(times, i, interval);
    forall j | 0 <= j < |samples|
      ensures SnapshotOf(samples[j], interval).download == (if j == i then 1 else 0)
      ensures GrowthTx(samples[j], interval) == if j == i then interval else 0
    {
      BurstSample(times, i, interval, j);
    }
    LoneSample(samples, interval, i, 1, interval);
  }

  lemma NoneStretched(samples: seq<Sample>, times: seq<int>, interval: int)
    requires Timed(samples, times) && NoStretchedGap(times, interval)
    ensures !SomeStretched(samples, interval)
  {
    forall i | 0 <= i < |samples| - 1 ensures !Stretched(samples[i], samples[i + 1], interval) {
      assert !StretchedGap(times, i, interval);
    }
  }

  lemma SafeSpacing(samples: seq<Sample>, times: seq<int>, interval: int)
    requires interval > 0 && Possible(samples, times, interval) && NoStretchedGap(times, interval)
    ensures ChartsNoMore(samples, interval)
  {
    ChartIsCovered(samples, interval);
    NoneStretched(samples, times, interval);
  }

  /**
   * A spacing of snapshots is safe for every traffic if and only if none of its gaps lies strictly above
   * one interval and up to two.
   */
  lemma CoveredExactly(times: seq<int>, interval: int)
    requires interval > 0
    ensures AllCovered(times, interval) <==> NoStretchedGap(times, interval)
  {
    if NoStretchedGap(times, interval) {
      forall samples | Possible(samples, times, interval) ensures ChartsNoMore(samples, interval) {
        SafeSpacing(samples, times, interval);
      }
    } else {
      var i: nat :| i + 1 < |times| && StretchedGap(times, i, interval);
      StretchedGapOvercharges(times, i, interval);
      BurstIsPossible(times, i, interval);
      assert !ChartsNoMore(OneBurst(times, i, interval), interval);
    }
  }

  // ---------- Days and ticks in a row ----------

  /** In each direction the chart's bars add up to the total when every snapshot falls on one of its days. */
  lemma {:induction false} BarsAddUp(snaps: seq<Snapshot>, up: bool, interval: int, dayOf: int -> int, days: nat)
    requires interval > 0 && forall i :: 0 <= i < |snaps| ==> 1 <= dayOf(snaps[i].time) <= days
    ensures SumDays(snaps, up, interval, dayOf, days)
         == if up then TotalUpload(snaps, interval) else TotalDownload(snaps, interval)
  {
    if |snaps| < 2 {
      NoBars(snaps, up, interval, dayOf, days);
    } else {
      var n := |snaps| - 2;
      BarsAddUp(snaps[..n + 1], up, interval, dayOf, days);
      OneBarGrows(snaps, up, interval, dayOf, days);
    }
  }

  function SumDays(snaps: seq<Snapshot>, up: bool, interval: int, dayOf: int -> int, days: nat): int
    requires interval > 0
    decreases days
  {
    if days == 0 then 0
    else SumDays(snaps, up, interval, dayOf, days - 1)
         + if up then DayUpload(snaps, interval, dayOf, days) else DayDownload(snaps, interval, dayOf, days)
  }

  lemma {:induction false} NoBars(snaps: seq<Snapshot>, up: bool, interval: int, dayOf: int -> int, days: nat)
    requires interval > 0 && |snaps| < 2
    ensures SumDays(snaps, up, interval, dayOf, days) == 0
    decreases days
  {
    if days > 0 {
      NoBars(snaps, up, interval, dayOf, days - 1);
    }
  }

  lemma {:induction false} OneBarGrows(snaps: seq<Snapshot>, up: bool, interval: int, dayOf: int -> int, days: nat)
    requires interval > 0 && |snaps| >= 2
    ensures var n := |snaps| - 2;
            var rate := if up then snaps[n].upload else snaps[n].download;
            SumDays(snaps, up, interval, dayOf, days)
            == SumDays(snaps[..n + 1], up, interval, dayOf, days)
               + if 1 <= dayOf(snaps[n].time) <= days then rate * Span(snaps[n], snaps[n + 1], interval) else 0
    decreases days
  {
    if days > 0 {
      OneBarGrows(snaps, up, interval, dayOf, days - 1);
    }
  }

  /** Without edits in between, the growth of the ticks is what the stored usage grew by. */
  lemma {:induction false} GrowthTelescopes(samples: seq<Sample>, interval: int)
    requires interval > 0 && samples != [] && Consecutive(samples, interval)
    ensures TotalGrowthTx(samples, interval)
         == SumTx(AfterTick(samples[|samples| - 1], interval)) - SumTx(samples[0].before)
    ensures TotalGrowthRx(samples, interval)
         == SumRx(AfterTick(samples[|samples| - 1], interval)) - SumRx(samples[0].before)
  {
    var n := |samples| - 1;
    if n == 0 {
      assert samples[..0] == [];
      assert TotalGrowthTx(samples[..0], interval) == 0 && TotalGrowthRx(samples[..0], interval) == 0;
    } else {
      GrowthTelescopes(samples[..n], interval);
      assert samples[n].before == AfterTick(samples[n - 1], interval);
    }
  }
}
