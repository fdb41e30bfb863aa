/**
 * The day quota over whole runs of ticks: how the days charged relate to the time that passed.
 * The check time moves to the moment of the charge, so days are charged late, never early.
 */
module DayQuota {
  import opened Wrappers
  import opened Sync

  datatype TickInput = TickInput(now: int, dump: Dump, interval: int)

  /** The row after the ticks in order. */
  function RunRow(u: User, ticks: seq<TickInput>): User
    requires forall k :: 0 <= k < |ticks| ==> ticks[k].interval > 0
  {
    if ticks == [] then u
    else
      var last := ticks[|ticks| - 1];
      TickRow(RunRow(u, ticks[..|ticks| - 1]), last.dump, last.now, last.interval)
  }

  /** A run of ticks none of which sees the peer. */
  predicate Absent(u: User, ticks: seq<TickInput>)
  {
    forall k :: 0 <= k < |ticks| ==> u.publicKey !in ticks[k].dump && ticks[k].interval > 0
  }

  /** While a peer stays away its row keeps flag, counters, totals, quotas and check time. */
  lemma {:induction false} AbsentRunKeeps(u: User, ticks: seq<TickInput>)
    requires Absent(u, ticks)
    ensures var v := RunRow(u, ticks);
            v == u.(connected := v.connected, endpoint := v.endpoint, lastHandshake := v.lastHandshake)
            && (u.publicKey != "" && ticks != [] ==> !v.connected)
  {
    if ticks != [] {
      var n := |ticks| - 1;
      AbsentRunKeeps(u, ticks[..n]);
      AbsentRowKeeps(RunRow(u, ticks[..n]), ticks[n].dump, ticks[n].now, ticks[n].interval);
    }
  }

  /** The clock does not go back, starting from `t0`. */
  predicate ClockRuns(t0: int, ticks: seq<TickInput>)
  {
    (ticks != [] ==> t0 <= ticks[0].now) && forall i, j :: 0 <= i < j < |ticks| ==> ticks[i].now <= ticks[j].now
  }

  function LastTime(t0: int, ticks: seq<TickInput>): int
  {
    if ticks == [] then t0 else ticks[|ticks| - 1].now
  }

  /** One tick of a row that has days left and a readable check time. */
  lemma DayStep(u: User, dump: Dump, now: int, interval: int)
    requires interval > 0 && u.days.Some? && u.days.value > 0 && u.lastCheck.At? && u.lastCheck.t <= now
    ensures var v := TickRow(u, dump, now, interval);
            var passed := (now - u.lastCheck.t) / DAY;
            v.publicKey == u.publicKey &&
            if u.publicKey == "" || u.publicKey !in dump || passed == 0
            then v.days == u.days && v.lastCheck == u.lastCheck
            else v.days == Some(Max(0, u.days.value - passed)) && v.lastCheck == At(now)
  {
  }

  /** A row that has run out stays out. */
  lemma OutStaysOut(u: User, dump: Dump, now: int, interval: int)
    requires interval > 0 && u.days.Some? && u.days.value <= 0
    ensures TickRow(u, dump, now, interval).days == u.days
  {
  }

  lemma DayDivision(x: int)
    ensures x / DAY * DAY <= x < x / DAY * DAY + DAY
  {
  }

  /** What a run keeps: the days charged fit between the first check and the latest one. */
  predicate ChargedFits(u: User, v: User, now: int)
    requires u.days.Some? && u.lastCheck.At?
  {
    v.days.Some? && v.publicKey == u.publicKey
    && 0 <= u.days.value - v.days.value
    && (v.days.value > 0 ==>
          v.lastCheck.At? && v.lastCheck.t <= now
          && (u.days.value - v.days.value) * DAY <= v.lastCheck.t - u.lastCheck.t)
    && (u.days.value - v.days.value) * DAY <= now - u.lastCheck.t
    && v.days.value >= 0
  }

  lemma {:induction false} RunFits(u: User, ticks: seq<TickInput>)
    requires u.days.Some? && u.days.value >= 0 && u.lastCheck.At? && ClockRuns(u.lastCheck.t, ticks)
    requires forall k :: 0 <= k < |ticks| ==> ticks[k].interval > 0
    ensures ChargedFits(u, RunRow(u, ticks), LastTime(u.lastCheck.t, ticks))
  {
    if ticks != [] {
      var n := |ticks| - 1;
      var v := RunRow(u, ticks[..n]);
      var now := ticks[n].now;
      RunFits(u, ticks[..n]);
      assert LastTime(u.lastCheck.t, ticks[..n]) <= now;
      if v.days.value > 0 {
        DayStep(v, ticks[n].dump, now, ticks[n].interval);
        DayDivision(now - v.lastCheck.t);
      } else {
        OutStaysOut(v, ticks[n].dump, now, ticks[n].interval);
      }
    }
  }

  /**
   * No day is charged early: over every run with a clock that does not go back, whatever the gaps
   * and absences, the days charged are at most the whole days since the first check.
   */
  lemma NeverChargedEarly(u: User, ticks: seq<TickInput>)
    requires u.days.Some? && u.days.value >= 0 && u.lastCheck.At? && ClockRuns(u.lastCheck.t, ticks)
    requires forall k :: 0 <= k < |ticks| ==> ticks[k].interval > 0
    ensures var v := RunRow(u, ticks);
            v.days.Some?
            && 0 <= u.days.value - v.days.value <= (LastTime(u.lastCheck.t, ticks) - u.lastCheck.t) / DAY
  {
    RunFits(u, ticks);
    var charged := u.days.value - RunRow(u, ticks).days.value;
    var elapsed := LastTime(u.lastCheck.t, ticks) - u.lastCheck.t;
    DayDivision(elapsed);
  }

  /** Ticks that see the peer, each at most `gap` seconds after the one before. */
  predicate Regular(t0: int, ticks: seq<TickInput>, key: string, gap: int)
  {
    && ClockRuns(t0, ticks)
    && (ticks != [] ==> ticks[0].now - t0 <= gap)
    && (forall k :: 0 <= k < |ticks| ==> key in ticks[k].dump)
    && forall k :: 0 < k < |ticks| ==> ticks[k].now - ticks[k - 1].now <= gap
  }

  lemma RegularPrefix(t0: int, ticks: seq<TickInput>, key: string, gap: int)
    requires Regular(t0, ticks, key, gap) && ticks != []
    ensures Regular(t0, ticks[..|ticks| - 1], key, gap)
    ensures LastTime(t0, ticks[..|ticks| - 1]) <= LastTime(t0, ticks) <= LastTime(t0, ticks[..|ticks| - 1]) + gap
  {
  }

  /** A charge of `more` days covers less than a day and a gap per day charged. */
  lemma ChargeCovers(charged: int, more: int, gap: int, t0: int, t: int, now: int)
    requires more >= 1 && gap >= 0 && t - t0 <= charged * (DAY + gap) && now - t < DAY + gap
    ensures now - t0 <= (charged + more) * (DAY + gap)
  {
    var unit := DAY + gap;
    assert (charged + more) * unit == charged * unit + more * unit;
    assert more * unit >= unit;
  }

  /** The time that the days charged between two rows pay for: a day and a gap each. */
  function Paid(u: User, v: User, gap: int): int
    requires u.days.Some? && v.days.Some?
  {
    (u.days.value - v.days.value) * (DAY + gap)
  }

  /** The latest check is under a day old, and its distance from the first is paid for. */
  predicate KeptUp(u: User, v: User, now: int, gap: int)
  {
    u.days.Some? && v.days.Some? && u.lastCheck.At? && v.lastCheck.At? && v.publicKey == u.publicKey
    && 0 <= now - v.lastCheck.t < DAY
    && v.lastCheck.t - u.lastCheck.t <= Paid(u, v, gap)
  }

  lemma StepKeepsUp(u: User, v: User, last: int, dump: Dump, now: int, interval: int, gap: int)
    requires KeptUp(u, v, last, gap) && interval > 0 && gap >= 0 && last <= now <= last + gap
    requires u.publicKey != "" && u.publicKey in dump && v.days.value > 0
    requires TickRow(v, dump, now, interval).days.Some? && TickRow(v, dump, now, interval).days.value > 0
    ensures KeptUp(u, TickRow(v, dump, now, interval), now, gap)
  {
    var passed := (now - v.lastCheck.t) / DAY;
    DayStep(v, dump, now, interval);
    DayDivision(now - v.lastCheck.t);
    if passed >= 1 {
      var charged := u.days.value - v.days.value;
      ChargeCovers(charged, passed, gap, u.lastCheck.t, v.lastCheck.t, now);
      assert u.days.value - TickRow(v, dump, now, interval).days.value == charged + passed;
    }
  }

  lemma {:induction false} RunKeepsUp(u: User, ticks: seq<TickInput>, gap: int)
    requires u.publicKey != "" && u.days.Some? && u.days.value > 0 && u.lastCheck.At? && gap >= 0
    requires Regular(u.lastCheck.t, ticks, u.publicKey, gap)
    requires forall k :: 0 <= k < |ticks| ==> ticks[k].interval > 0
    requires RunRow(u, ticks).days.Some? && RunRow(u, ticks).days.value > 0
    ensures KeptUp(u, RunRow(u, ticks), LastTime(u.lastCheck.t, ticks), gap)
  {
    if ticks != [] {
      var front, last := ticks[..|ticks| - 1], ticks[|ticks| - 1];
      var v := RunRow(u, front);
      RegularPrefix(u.lastCheck.t, ticks, u.publicKey, gap);
      RunFits(u, front);
      if v.days.value <= 0 {
        OutStaysOut(v, last.dump, last.now, last.interval);
      }
      RunKeepsUp(u, front, gap);
      StepKeepsUp(u, v, LastTime(u.lastCheck.t, front), last.dump, last.now, last.interval, gap);
    }
  }

  /**
   * Nor is a day forgotten: with ticks that see the peer at most `gap` seconds apart, as long as days
   * remain the time since the first check is less than a day more than what the charged days pay for.
   */
  lemma NeverFarBehind(u: User, ticks: seq<TickInput>, gap: int)
    requires u.publicKey != "" && u.days.Some? && u.days.value > 0 && u.lastCheck.At? && gap >= 0
    requires Regular(u.lastCheck.t, ticks, u.publicKey, gap)
    requires forall k :: 0 <= k < |ticks| ==> ticks[k].interval > 0
    requires RunRow(u, ticks).days.Some? && RunRow(u, ticks).days.value > 0
    ensures LastTime(u.lastCheck.t, ticks) - u.lastCheck.t < Paid(u, RunRow(u, ticks), gap) + DAY
  {
    RunKeepsUp(u, ticks, gap);
  }

  /** A row without a readable check time starts its clock at the first tick that sees it, free of charge. */
  lemma FirstTickStartsTheClock(u: User, dump: Dump, now: int, interval: int)
    requires interval > 0 && u.publicKey != "" && u.publicKey in dump
    requires u.days.Some? && u.days.value > 0 && !u.lastCheck.At?
    ensures TickRow(u, dump, now, interval).days == u.days
    ensures TickRow(u, dump, now, interval).lastCheck == At(now)
  {
  }

  lemma RunRowLast(u: User, ticks: seq<TickInput>, t: TickInput)
    requires t.interval > 0 && forall k :: 0 <= k < |ticks| ==> ticks[k].interval > 0
    ensures RunRow(u, ticks + [t]) == TickRow(RunRow(u, ticks), t.dump, t.now, t.interval)
  {
    assert (ticks + [t])[..|ticks|] == ticks;
  }

  lemma LastApart<T>(xs: seq<T>, ys: seq<T>)
    requires ys != []
    ensures var n := |ys| - 1;
            xs + ys == xs + ys[..n] + [ys[n]] && ys == ys[..n] + [ys[n]]
  {
  }

  predicate Regulated(ticks: seq<TickInput>)
  {
    forall k :: 0 <= k < |ticks| ==> ticks[k].interval > 0
  }

  lemma {:induction false} RunRowSplit(u: User, xs: seq<TickInput>, ys: seq<TickInput>)
    requires Regulated(xs) && Regulated(ys)
    ensures Regulated(xs + ys) && RunRow(u, xs + ys) == RunRow(RunRow(u, xs), ys)
    decreases |ys|
  {
    if ys == [] {
      assert xs + ys == xs;
    } else {
      var front, last := ys[..|ys| - 1], ys[|ys| - 1];
      RunRowSplit(u, xs, front);
      LastApart(xs, ys);
      RunRowLast(u, xs + front, last);
      RunRowLast(RunRow(u, xs), front, last);
    }
  }

  lemma ClockGoesOn(ticks: seq<TickInput>, k: nat)
    requires k < |ticks| && ClockRuns(ticks[0].now, ticks)
    ensures ClockRuns(ticks[k].now, ticks[k + 1..])
    ensures LastTime(ticks[k].now, ticks[k + 1..]) == ticks[|ticks| - 1].now
  {
  }

  /** The row after the first tick that sees its peer. */
  lemma FirstSight(u: User, ticks: seq<TickInput>, k: nat)
    requires k < |ticks| && Absent(u, ticks[..k]) && ticks[k].interval > 0
    requires u.publicKey != "" && u.publicKey in ticks[k].dump
    requires u.days.Some? && u.days.value > 0 && !u.lastCheck.At?
    ensures RunRow(u, ticks[..k + 1]).days == u.days && RunRow(u, ticks[..k + 1]).lastCheck == At(ticks[k].now)
  {
    AbsentRunKeeps(u, ticks[..k]);
    RunRowLast(u, ticks[..k], ticks[k]);
    assert ticks[..k + 1] == ticks[..k] + [ticks[k]];
    FirstTickStartsTheClock(RunRow(u, ticks[..k]), ticks[k].dump, ticks[k].now, ticks[k].interval);
  }

  /**
   * A row without a readable check time is charged nothing before the first tick that sees its peer, and
   * from then on no day early.
   */
  lemma LateStartNeverChargedEarly(u: User, ticks: seq<TickInput>, k: nat)
    requires k < |ticks| && Absent(u, ticks[..k]) && u.publicKey != "" && u.publicKey in ticks[k].dump
    requires u.days.Some? && u.days.value > 0 && !u.lastCheck.At?
    requires ClockRuns(ticks[0].now, ticks) && forall i :: 0 <= i < |ticks| ==> ticks[i].interval > 0
    ensures var v := RunRow(u, ticks);
            v.days.Some?
            && 0 <= u.days.value - v.days.value <= (ticks[|ticks| - 1].now - ticks[k].now) / DAY
  {
    var v := RunRow(u, ticks[..k + 1]);
    var rest := ticks[k + 1..];
    FirstSight(u, ticks, k);
    RunRowSplit(u, ticks[..k + 1], rest);
    assert ticks == ticks[..k + 1] + rest;
    ClockGoesOn(ticks, k);
    NeverChargedEarly(v, rest);
  }

  /** A row without a day quota, or with none left, is never charged, and no tick starts or moves its clock. */
  lemma {:induction false} NoQuotaNoClock(u: User, ticks: seq<TickInput>)
    requires Regulated(ticks) && (u.days.None? || u.days.value <= 0)
    ensures var v := RunRow(u, ticks);
            && v.days == u.days
            && (u.lastCheck.At? || u.days.None? ==> v.lastCheck == u.lastCheck)
            && (v.lastCheck.At? ==> u.lastCheck.At?)
  {
    if ticks != [] {
      NoQuotaNoClock(u, ticks[..|ticks| - 1]);
    }
  }

  /** Whatever the clock does, also when it goes back, no tick gives days. */
  lemma {:induction false} DaysNeverGrow(u: User, ticks: seq<TickInput>)
    requires Regulated(ticks) && u.days.Some? && u.days.value >= 0
    ensures RunRow(u, ticks).days.Some? && 0 <= RunRow(u, ticks).days.value <= u.days.value
  {
    if ticks != [] {
      DaysNeverGrow(u, ticks[..|ticks| - 1]);
    }
  }

  // ---------- Ticks at a fixed distance ----------

  /** Ticks `gap` seconds apart from `t0` on, each of which sees the peer. */
  predicate Periodic(t0: int, ticks: seq<TickInput>, key: string, gap: int)
  {
    forall k :: 0 <= k < |ticks| ==>
      ticks[k].now == t0 + (k + 1) * gap && key in ticks[k].dump && ticks[k].interval > 0
  }

  lemma SinceCheck(c: int, n: int, r: int, gap: int)
    ensures (c * n + r) * gap - c * (n * gap) == r * gap
  {
  }

  lemma WithinTheDay(n: int, r: int, gap: int)
    requires 0 < gap <= 86400 && (n - 1) * gap < 86400 <= n * gap && 0 <= r <= n
    ensures 0 <= r * gap && r * gap / 86400 == if r == n then 1 else 0
  {
    if r < n {
      assert r * gap <= (n - 1) * gap;
    } else {
      assert n * gap == (n - 1) * gap + gap;
    }
  }

  /** One more tick: `r` gaps after the latest charge, or the first check. */
  lemma PeriodicStep(v: User, t: int, dump: Dump, interval: int, n: int, r: int, gap: int)
    requires interval > 0 && v.publicKey != "" && v.publicKey in dump
    requires 0 < gap <= 86400 && (n - 1) * gap < 86400 <= n * gap && 0 <= r <= n
    requires v.days.Some? && v.days.value > 0 && v.lastCheck == At(t)
    ensures var w := TickRow(v, dump, t + r * gap, interval);
            w.publicKey == v.publicKey
            && if r == n then w.days == Some(v.days.value - 1) && w.lastCheck == At(t + n * gap)
               else w.days == v.days && w.lastCheck == v.lastCheck
  {
    WithinTheDay(n, r, gap);
    DayStep(v, dump, t + r * gap, interval);
  }

  /** What `c` whole cycles and `r` ticks more leave. */
  predicate Cycled(u: User, v: User, c: nat, cycle: int)
  {
    u.days.Some? && u.lastCheck.At? && v.publicKey == u.publicKey
    && if c < u.days.value then v.days == Some(u.days.value - c) && v.lastCheck == At(u.lastCheck.t + c * cycle)
       else v.days == Some(0)
  }

  lemma CycledStep(u: User, v: User, c: nat, r: nat, n: nat, gap: int, last: TickInput)
    requires u.publicKey != "" && u.publicKey in last.dump && last.interval > 0
    requires 0 < gap <= 86400 && (n - 1) * gap < 86400 <= n * gap && r < n
    requires Cycled(u, v, c, n * gap) && last.now == u.lastCheck.t + (c * n + (r + 1)) * gap
    ensures Cycled(u, TickRow(v, last.dump, last.now, last.interval), if r + 1 == n then c + 1 else c, n * gap)
  {
    SinceCheck(c, n, r + 1, gap);
    NextCycle(c, n * gap);
    if c < u.days.value {
      PeriodicStep(v, v.lastCheck.t, last.dump, last.interval, n, r + 1, gap);
    } else {
      OutStaysOut(v, last.dump, last.now, last.interval);
    }
  }

  lemma {:induction false} PeriodicRun(u: User, ticks: seq<TickInput>, gap: int, n: nat, c: nat, r: nat)
    requires u.publicKey != "" && u.days.Some? && u.days.value >= 0 && u.lastCheck.At?
    requires 0 < gap <= 86400 && (n - 1) * gap < 86400 <= n * gap
    requires Periodic(u.lastCheck.t, ticks, u.publicKey, gap) && |ticks| == c * n + r && r < n
    ensures Cycled(u, RunRow(u, ticks), c, n * gap)
    decreases |ticks|
  {
    if ticks == [] {
      NoTick(c, n, r);
    } else {
      var m := |ticks| - 1;
      var c0, r0 := BeforeLast(c, n, r);
      PeriodicRun(u, ticks[..m], gap, n, c0, r0);
      CycledStep(u, RunRow(u, ticks[..m]), c0, r0, n, gap, ticks[m]);
    }
  }

  lemma NoTick(c: nat, n: nat, r: nat)
    requires c * n + r == 0 && n > 0
    ensures c == 0
  {
  }

  /** The cycle and position of the tick before. */
  lemma BeforeLast(c: nat, n: nat, r: nat) returns (c0: nat, r0: nat)
    requires r < n && c * n + r > 0
    ensures c * n + r == c0 * n + r0 + 1 && r0 < n
    ensures if r0 + 1 == n then c == c0 + 1 else c == c0
  {
    if r > 0 {
      c0, r0 := c, r - 1;
    } else {
      c0, r0 := c - 1, n - 1;
    }
  }

  lemma NextCycle(c: int, cycle: int)
    ensures (c + 1) * cycle == c * cycle + cycle
  {
  }

  /**
   * With ticks every `gap` seconds a day is charged at every n-th of them, where n gaps are the fewest that
   * make a day. So a day costs n * gap seconds, not 86400, until none is left.
   */
  lemma OneDayEveryCycle(u: User, ticks: seq<TickInput>, gap: int, n: nat)
    requires u.publicKey != "" && u.days.Some? && u.days.value >= 0 && u.lastCheck.At?
    requires 0 < gap <= 86400 && (n - 1) * gap < 86400 <= n * gap
    requires Periodic(u.lastCheck.t, ticks, u.publicKey, gap)
    ensures n > 0 && RunRow(u, ticks).days == Some(Max(0, u.days.value - |ticks| / n))
  {
    var c, r := |ticks| / n, |ticks| % n;
    assert |ticks| == c * n + r;
    PeriodicRun(u, ticks, gap, n, c, r);
  }
}
