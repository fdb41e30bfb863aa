/** Rate and burst literals of `internal/pcq/plan.go`, with exact rationals for the source's floats. */
module Rates {
  import Numbers

  /** Bits per second for a cap in kb/s, where 1024 kb/s are a million bits: never under 8000. */
  function BitsPerSecond(kbps: int): (bits: nat)
    requires kbps > 0
  {
    var exact := (15625 * kbps + 8) / 16;
    if exact < 8000 then 8000 else exact
  }

  function KbpsToRateSpec(kbps: int): (s: string)
    ensures s == "" <==> kbps <= 0
  {
    if kbps <= 0 then "" else Numbers.Print(BitsPerSecond(kbps), 10) + "bit"
  }

  /** Fifty milliseconds of traffic at the given cap, at least 1600 bytes. */
  function BytesInFiftyMs(kbps: int): (b: nat)
    requires kbps > 0
    ensures b >= 1600
  {
    var exact := (3125 * kbps + 256) / 512;
    if exact < 1600 then 1600 else exact
  }

  function BurstBytesPreferringConfig(burstKbps: int, rateKbps: int): (b: nat)
  {
    if burstKbps > 0 then
      var fromBurst := BytesInFiftyMs(burstKbps);
      if rateKbps > 0 && fromBurst > BytesInFiftyMs(rateKbps) then BytesInFiftyMs(rateKbps) else fromBurst
    else if rateKbps > 0 then BytesInFiftyMs(rateKbps)
    else 12500
  }

  /** The integer nearest to kbps * 10^6 / 1024, halves up, or the floor of 8000. */
  predicate IsRate(bits: int, kbps: int)
  {
    if 15625 * kbps < 8000 * 16 - 8 then bits == 8000
    else 2 * 15625 * kbps - 16 < 2 * 16 * bits <= 2 * 15625 * kbps + 16
  }

  /** The integer nearest to one 160th of kbps * 10^6 / 1024, halves up, or the floor of 1600. */
  predicate IsBurst(bytes: int, kbps: int)
  {
    if 3125 * kbps < 1600 * 512 - 256 then bytes == 1600
    else 2 * 3125 * kbps - 512 < 2 * 512 * bytes <= 2 * 3125 * kbps + 512
  }

  lemma RateIsNearest(kbps: int)
    requires kbps > 0
    ensures IsRate(BitsPerSecond(kbps), kbps)
  {
  }

  lemma BurstIsNearest(kbps: int)
    requires kbps > 0
    ensures IsBurst(BytesInFiftyMs(kbps), kbps)
  {
  }

  /** A lower cap never compiles to a higher rate. */
  lemma RateIsMonotone(low: int, high: int)
    requires 0 < low <= high
    ensures BitsPerSecond(low) <= BitsPerSecond(high)
    ensures BytesInFiftyMs(low) <= BytesInFiftyMs(high)
  {
  }

  /** The smaller of the two settings that are positive; 0 when neither is. */
  function Smaller(a: int, b: int): (c: int)
    ensures c == 0 <==> a <= 0 && b <= 0
    ensures c > 0 ==> (c == a || c == b) && (a > 0 ==> c <= a) && (b > 0 ==> c <= b)
  {
    if a > 0 && (b <= 0 || a <= b) then a else if b > 0 then b else 0
  }

  /** The burst is that of the smaller positive setting, and 12500 bytes when there is none. */
  lemma BurstFollowsSmallerSetting(burstKbps: int, rateKbps: int)
    ensures var bytes, cap := BurstBytesPreferringConfig(burstKbps, rateKbps), Smaller(burstKbps, rateKbps);
            if cap > 0 then IsBurst(bytes, cap) else bytes == 12500
  {
    if 0 < burstKbps {
      BurstIsNearest(burstKbps);
    }
    if 0 < rateKbps {
      BurstIsNearest(rateKbps);
    }
    if 0 < burstKbps && 0 < rateKbps {
      if burstKbps <= rateKbps {
        RateIsMonotone(burstKbps, rateKbps);
      } else {
        RateIsMonotone(rateKbps, burstKbps);
      }
    }
  }
}
