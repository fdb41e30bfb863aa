/**
 * Enumerating the hosts of an IPv4 network by byte arithmetic: `allHostsIPv4`, `addToIPv4` and
 * `bytesLess` of `internal/wireguard/peers.go`.
 */
module Hosts {
  import opened Ipv4

  /** A network as Go's `net.IPNet`: an address and the length of its prefix (CIDR, section 3.1 of RFC 4632). */
  datatype Cidr = Cidr(base: Ip, ones: nat)

  // ---------- Addresses as numbers ----------

  function Val(ip: Ip): nat
  {
    ip.a * 0x100_0000 + ip.b * 0x1_0000 + ip.c * 0x100 + ip.d
  }

  /** The last four bytes of a number. */
  function FromVal(v: nat): Ip
  {
    Ip(v / 256 / 256 / 256 % 256, v / 256 / 256 % 256, v / 256 % 256, v % 256)
  }

  /** Dividing by 256 drops the last byte. */
  lemma LastByte(high: nat, low: Byte)
    ensures (256 * high + low) / 256 == high && (256 * high + low) % 256 == low
  {
  }

  lemma FromValOfVal(ip: Ip)
    ensures Val(ip) < 0x1_0000_0000 && FromVal(Val(ip)) == ip
  {
    LastByte(ip.a, ip.b);
    LastByte(ip.a * 256 + ip.b, ip.c);
    LastByte(ip.a * 0x1_0000 + ip.b * 256 + ip.c, ip.d);
  }

  lemma ValOfFromVal(v: nat)
    ensures Val(FromVal(v)) == v % 0x1_0000_0000
  {
    var w := v / 256;
    var u := w / 256;
    var t := u / 256;
    assert v == 256 * w + v % 256;
    assert w == 256 * u + w % 256;
    assert u == 256 * t + u % 256;
    assert t == 256 * (t / 256) + t % 256;
    assert v == 0x1_0000_0000 * (t / 256) + Val(FromVal(v));
  }

  lemma ValInjective(x: Ip, y: Ip)
    requires Val(x) == Val(y)
    ensures x == y
  {
    FromValOfVal(x);
    FromValOfVal(y);
  }

  // ---------- Masks ----------

  function Pow2(n: nat): (p: nat)
    ensures p > 0
  {
    if n == 0 then 1 else 2 * Pow2(n - 1)
  }

  /** A number with its low `k` bits cleared. */
  function ClearLow(v: nat, k: nat): (r: nat)
    ensures r <= v
    decreases k
  {
    if k == 0 then v else 2 * ClearLow(v / 2, k - 1)
  }

  /** How many of the mask's one bits fall into byte `k`. */
  function OnesInByte(ones: nat, k: nat): (n: nat)
    ensures n <= 8
  {
    if ones <= 8 * k then 0 else if ones >= 8 * k + 8 then 8 else ones - 8 * k
  }

  function MaskByte(x: Byte, ones: nat): Byte
    requires ones <= 8
  {
    ClearLow(x, 8 - ones)
  }

  /** `IP.Mask` with a prefix mask, byte by byte. */
  function Mask(ip: Ip, ones: nat): Ip
  {
    Ip(MaskByte(ip.a, OnesInByte(ones, 0)), MaskByte(ip.b, OnesInByte(ones, 1)),
       MaskByte(ip.c, OnesInByte(ones, 2)), MaskByte(ip.d, OnesInByte(ones, 3)))
  }

  /** `IPNet.Contains`. */
  predicate Contains(net: Cidr, ip: Ip)
  {
    Mask(ip, net.ones) == Mask(net.base, net.ones)
  }

  /** Bits that are clear stay clear when fewer are cleared. */
  lemma {:induction false} ClearFewer(y: nat, k: nat, m: nat)
    requires k <= m && ClearLow(y, m) == y
    ensures ClearLow(y, k) == y
    decreases k
  {
    if k > 0 {
      ClearFewer(y / 2, k - 1, m - 1);
    }
  }

  lemma {:induction false} ClearAbove(y: nat, d: nat, k: nat)
    requires ClearLow(y, k) == y
    ensures ClearLow(y + d, k) == y + ClearLow(d, k)
    decreases k
  {
    if k > 0 {
      ClearAbove(y / 2, d / 2, k - 1);
    }
  }

  lemma ClearTwo(v: nat, k: nat)
    ensures ClearLow(v, k + 2) == 4 * ClearLow(v / 4, k)
  {
    assert ClearLow(v, k + 2) == 2 * ClearLow(v / 2, k + 1);
    assert v / 2 / 2 == v / 4;
  }

  lemma ClearEight(v: nat, k: nat)
    ensures ClearLow(v, k + 8) == 256 * ClearLow(v / 256, k)
  {
    ClearTwo(v, k + 6);
    ClearTwo(v / 4, k + 4);
    ClearTwo(v / 16, k + 2);
    ClearTwo(v / 64, k);
    assert v / 4 / 4 == v / 16 && v / 16 / 4 == v / 64 && v / 64 / 4 == v / 256;
  }

  lemma ClearAboveByte(h: nat, k: nat)
    requires k <= 8
    ensures ClearLow(256 * h, k) == 256 * h
  {
    var y := 256 * h;
    LastByte(h, 0);
    assert ClearLow(y, 8) == y by {
      ClearEight(y, 0);
    }
    ClearFewer(y, k, 8);
  }

  /** `h` above a byte of which the low `k` bits are cleared. */
  lemma ClearInByte(h: nat, d: Byte, k: nat)
    requires k <= 8
    ensures ClearLow(256 * h + d, k) == 256 * h + ClearLow(d, k)
  {
    ClearAboveByte(h, k);
    ClearAbove(256 * h, d, k);
  }

  lemma ClearByteAndBits(h: nat, c: Byte, d: Byte, k: nat)
    requires k <= 8
    ensures ClearLow(256 * (256 * h + c) + d, k + 8) == 256 * (256 * h + ClearLow(c, k))
  {
    ClearEight(256 * (256 * h + c) + d, k);
    LastByte(256 * h + c, d);
    ClearInByte(h, c, k);
  }

  lemma MaskedNone(x: Byte)
    ensures MaskByte(x, 0) == 0
  {
    ClearEight(x, 0);
  }

  lemma MaskInLastByte(ip: Ip, k: nat)
    requires k <= 8
    ensures Mask(ip, 32 - k) == Ip(ip.a, ip.b, ip.c, ClearLow(ip.d, k))
  {
  }

  lemma MaskInThirdByte(ip: Ip, k: nat)
    requires k <= 8
    ensures Mask(ip, 24 - k) == Ip(ip.a, ip.b, ClearLow(ip.c, k), 0)
  {
    MaskedNone(ip.d);
  }

  lemma ValueInLastByte(ip: Ip, k: nat)
    requires k <= 8
    ensures ClearLow(Val(ip), k) == Val(Ip(ip.a, ip.b, ip.c, ClearLow(ip.d, k)))
  {
    var h := ip.a * 0x1_0000 + ip.b * 0x100 + ip.c;
    assert Val(ip) == 256 * h + ip.d;
    ClearInByte(h, ip.d, k);
  }

  lemma ValueInThirdByte(ip: Ip, k: nat)
    requires k <= 8
    ensures ClearLow(Val(ip), k + 8) == Val(Ip(ip.a, ip.b, ClearLow(ip.c, k), 0))
  {
    var h := ip.a * 0x100 + ip.b;
    assert Val(ip) == 256 * (256 * h + ip.c) + ip.d;
    ClearByteAndBits(h, ip.c, ip.d, k);
  }

  /** Masking with at most 16 host bits clears the low bits of the address as a number. */
  lemma MaskValue(ip: Ip, hostBits: nat)
    requires hostBits <= 16
    ensures Val(Mask(ip, 32 - hostBits)) == ClearLow(Val(ip), hostBits)
  {
    if hostBits <= 8 {
      MaskInLastByte(ip, hostBits);
      ValueInLastByte(ip, hostBits);
    } else {
      MaskInThirdByte(ip, hostBits - 8);
      ValueInThirdByte(ip, hostBits - 8);
    }
  }

  // ---------- Blocks ----------

  /** Prefix lengths that the enumeration accepts. */
  predicate Listed(net: Cidr)
  {
    16 <= net.ones < 32
  }

  /** The number of addresses that share the network's prefix. */
  function BlockSize(net: Cidr): nat
    requires net.ones <= 32
  {
    Pow2(32 - net.ones)
  }

  /** The network address as a number. */
  function Network(net: Cidr): nat
  {
    Val(Mask(net.base, net.ones))
  }

  lemma {:induction false} ClearedFits(v: nat, k: nat, m: nat)
    requires k <= m && v < Pow2(m)
    ensures ClearLow(v, k) + Pow2(k) <= Pow2(m)
    decreases k
  {
    if k > 0 {
      ClearedFits(v / 2, k - 1, m - 1);
    }
  }

  /** The numbers with the same high bits form an interval. */
  lemma {:induction false} ClearedInterval(v: nat, w: nat, k: nat)
    ensures ClearLow(v, k) == ClearLow(w, k) <==> ClearLow(w, k) <= v < ClearLow(w, k) + Pow2(k)
    decreases k
  {
    if k > 0 {
      ClearedInterval(v / 2, w / 2, k - 1);
    }
  }

  lemma DividedTwice(v: nat, d: nat)
    requires d > 0
    ensures v / 2 / d == v / (2 * d)
  {
    var q, s := v / 2 / d, v / 2 % d;
    var r := 2 * s + v % 2;
    assert v / 2 == d * q + s;
    assert v == (2 * d) * q + r;
    QuotientIs(v, 2 * d, q, r);
  }

  lemma QuotientIs(v: nat, d: nat, q: nat, r: nat)
    requires 0 <= r < d && v == d * q + r
    ensures v / d == q
  {
    var p := v / d;
    assert v == d * p + v % d;
    Distance(d, p, q);
    SmallMultiple(d, p - q);
  }

  lemma Distance(d: int, p: int, q: int)
    ensures d * (p - q) == d * p - d * q
  {
  }

  lemma TimesAtLeast(d: int, k: int)
    requires d >= 0 && k >= 1
    ensures d * k >= d
  {
  }

  lemma SmallMultiple(d: int, k: int)
    requires 0 < d && -d < d * k < d
    ensures k == 0
  {
    if k >= 1 {
      TimesAtLeast(d, k);
    } else if k <= -1 {
      TimesAtLeast(d, -k);
    }
  }

  /** Clearing low bits rounds down to a multiple of the block size. */
  lemma {:induction false} ClearedIsMultiple(v: nat, k: nat)
    ensures ClearLow(v, k) == Pow2(k) * (v / Pow2(k))
    decreases k
  {
    if k > 0 {
      ClearedIsMultiple(v / 2, k - 1);
      DividedTwice(v, Pow2(k - 1));
    }
  }

  lemma ClearDoubled(x: nat, k: nat)
    requires k > 0
    ensures ClearLow(2 * x, k) == 2 * ClearLow(x, k - 1)
  {
    assert 2 * x / 2 == x;
  }

  lemma {:induction false} ClearedTwice(v: nat, k: nat)
    ensures ClearLow(ClearLow(v, k), k) == ClearLow(v, k)
    decreases k
  {
    if k > 0 {
      ClearedTwice(v / 2, k - 1);
      ClearDoubled(ClearLow(v / 2, k - 1), k);
    }
  }

  /** The block of an address starts at the multiple of its size at or below the address. */
  lemma BlockOf(base: Ip, ones: nat)
    requires 16 <= ones < 32
    ensures var size := Pow2(32 - ones);
            Network(Cidr(Mask(base, ones), ones)) == size * (Val(base) / size)
  {
    MaskValue(base, 32 - ones);
    MaskValue(Mask(base, ones), 32 - ones);
    ClearedTwice(Val(base), 32 - ones);
    ClearedIsMultiple(Val(base), 32 - ones);
  }

  lemma Pow2Of32()
    ensures Pow2(32) == 0x1_0000_0000
  {
    assert Pow2(8) == 0x100;
    assert Pow2(16) == 0x1_0000;
    assert Pow2(24) == 0x100_0000;
  }

  /** A block has an end within the 32-bit address space. */
  lemma NetworkBlock(net: Cidr)
    requires Listed(net)
    ensures BlockSize(net) >= 2 && Network(net) + BlockSize(net) <= 0x1_0000_0000
  {
    FromValOfVal(net.base);
    MaskValue(net.base, 32 - net.ones);
    Pow2Of32();
    ClearedFits(Val(net.base), 32 - net.ones, 32);
  }

  /** Membership by masks is membership in an interval of numbers. */
  lemma ContainsIsInterval(net: Cidr, ip: Ip)
    requires Listed(net)
    ensures Contains(net, ip) <==> Network(net) <= Val(ip) < Network(net) + BlockSize(net)
  {
    MaskValue(ip, 32 - net.ones);
    MaskValue(net.base, 32 - net.ones);
    ClearedInterval(Val(ip), Val(net.base), 32 - net.ones);
    if Val(Mask(ip, net.ones)) == Network(net) {
      ValInjective(Mask(ip, net.ones), Mask(net.base, net.ones));
    }
  }

  // ---------- Enumeration ----------

  function Addresses(first: nat, count: nat): (ips: seq<Ip>)
    ensures |ips| == count
  {
    seq(count, i requires 0 <= i < count => FromVal(first + i))
  }

  lemma AddressAt(first: nat, count: nat, i: nat)
    requires i < count && first + count <= 0x1_0000_0000
    ensures Val(Addresses(first, count)[i]) == first + i
  {
    ValOfFromVal(first + i);
  }

  /** The addresses of a block but its first and last, in the order of their numbers. */
  function AllHosts(net: Cidr): seq<Ip>
  {
    if Listed(net) then NetworkBlock(net); Addresses(Network(net) + 1, BlockSize(net) - 2) else []
  }

  method AddToIPv4(ip: array<Byte>, n: nat)
    requires ip.Length == 4
    modifies ip
    ensures Val(Ip(ip[0], ip[1], ip[2], ip[3]))
         == (old(Val(Ip(ip[0], ip[1], ip[2], ip[3]))) + n) % 0x1_0000_0000
  {
    var v: int := ip[0] as int * 0x100_0000 + ip[1] as int * 0x1_0000 + ip[2] as int * 0x100 + ip[3] as int;
    v := v + n;
    ValOfFromVal(v);
    ip[0] := v / 256 / 256 / 256 % 256;
    ip[1] := v / 256 / 256 % 256;
    ip[2] := v / 256 % 256;
    ip[3] := v % 256;
  }

  lemma HostContained(net: Cidr, i: nat, ip: Ip)
    requires Listed(net) && i < BlockSize(net)
    requires Val(ip) == (Network(net) + i) % 0x1_0000_0000
    ensures Contains(net, ip) && Val(ip) == Network(net) + i
  {
    NetworkBlock(net);
    ContainsIsInterval(net, ip);
  }

  lemma HostAt(net: Cidr, i: nat, ip: Ip)
    requires Listed(net) && 1 <= i < BlockSize(net) - 1
    requires Val(ip) == Network(net) + i
    ensures i <= |AllHosts(net)| && AllHosts(net)[i - 1] == ip
  {
    NetworkBlock(net);
    AddressAt(Network(net) + 1, BlockSize(net) - 2, i - 1);
    ValInjective(ip, AllHosts(net)[i - 1]);
  }

  lemma TakeNext<T>(s: seq<T>, i: nat)
    requires i < |s|
    ensures s[..i] + [s[i]] == s[..i + 1]
  {
  }

  /** The containment filter drops nothing and the additions never wrap. */
  method AllHostsIPv4(net: Cidr) returns (out: seq<Ip>)
    requires net.ones <= 32
    ensures out == AllHosts(net)
  {
    var network := Mask(net.base, net.ones);
    var hostBits := 32 - net.ones;
    out := [];
    if hostBits <= 0 || hostBits > 16 {
      return;
    }
    var total := Pow2(hostBits);
    NetworkBlock(net);
    var i := 1;
    while i < total - 1
      invariant 1 <= i <= total - 1
      invariant out == AllHosts(net)[..i - 1]
    {
      var ip := new Byte[4] [network.a, network.b, network.c, network.d];
      AddToIPv4(ip, i);
      var host := Ip(ip[0], ip[1], ip[2], ip[3]);
      HostContained(net, i, host);
      HostAt(net, i, host);
      TakeNext(AllHosts(net), i - 1);
      if Contains(net, host) {
        out := out + [host];
      }
      i := i + 1;
    }
  }

  predicate BytesLess(a: Ip, b: Ip)
  {
    Val(a) < Val(b)
  }

  /** The last address of the block. */
  predicate IsBroadcast(net: Cidr, ip: Ip)
    requires Listed(net)
  {
    Val(ip) == Network(net) + BlockSize(net) - 1
  }

  predicate IsHost(net: Cidr, ip: Ip)
    requires Listed(net)
  {
    Contains(net, ip) && ip != Mask(net.base, net.ones) && !IsBroadcast(net, ip)
  }

  /** Hosts are the addresses strictly between the first and the last of the block. */
  lemma HostIsInner(net: Cidr, ip: Ip)
    requires Listed(net)
    ensures IsHost(net, ip) <==> Network(net) < Val(ip) < Network(net) + BlockSize(net) - 1
  {
    ContainsIsInterval(net, ip);
    if Val(ip) == Network(net) {
      ValInjective(ip, Mask(net.base, net.ones));
    }
  }

  predicate Increasing(hosts: seq<Ip>)
  {
    forall i, j :: 0 <= i < j < |hosts| ==> BytesLess(hosts[i], hosts[j])
  }

  lemma AddressesIncrease(first: nat, count: nat)
    requires first + count <= 0x1_0000_0000
    ensures Increasing(Addresses(first, count))
  {
    var s := Addresses(first, count);
    forall i, j | 0 <= i < j < |s| ensures BytesLess(s[i], s[j]) {
      AddressAt(first, count, i);
      AddressAt(first, count, j);
    }
  }

  lemma AddressesHold(first: nat, count: nat, ip: Ip)
    requires first + count <= 0x1_0000_0000
    ensures ip in Addresses(first, count) <==> first <= Val(ip) < first + count
  {
    var s := Addresses(first, count);
    if first <= Val(ip) < first + count {
      AddressAt(first, count, Val(ip) - first);
      ValInjective(ip, s[Val(ip) - first]);
    }
    if ip in s {
      var i :| 0 <= i < |s| && s[i] == ip;
      AddressAt(first, count, i);
    }
  }

  lemma HostsIncrease(net: Cidr)
    ensures Increasing(AllHosts(net))
  {
    if Listed(net) {
      NetworkBlock(net);
      AddressesIncrease(Network(net) + 1, BlockSize(net) - 2);
    }
  }

  /** The list holds every host, in strictly increasing order, and nothing else. */
  lemma HostsAreExact(net: Cidr)
    requires Listed(net)
    ensures forall ip :: ip in AllHosts(net) <==> IsHost(net, ip)
    ensures Increasing(AllHosts(net))
  {
    NetworkBlock(net);
    HostsIncrease(net);
    forall ip ensures ip in AllHosts(net) <==> IsHost(net, ip) {
      HostIsInner(net, ip);
      AddressesHold(Network(net) + 1, BlockSize(net) - 2, ip);
    }
  }

  // ---------- Sorting ----------

  /** Any result of `sort.Slice` with `bytesLess`: the same elements, and no later one below an earlier one. */
  predicate SortOf(sorted: seq<Ip>, s: seq<Ip>)
  {
    multiset(sorted) == multiset(s) && NoInversion(sorted)
  }

  predicate NoInversion(sorted: seq<Ip>)
  {
    forall i, j :: 0 <= i < j < |sorted| ==> !BytesLess(sorted[j], sorted[i])
  }

  lemma SameLeast(s: seq<Ip>, sorted: seq<Ip>)
    requires s != [] && Increasing(s) && SortOf(sorted, s)
    ensures sorted != [] && sorted[0] == s[0]
  {
    assert s[0] in multiset(sorted) && |multiset(sorted)| == |sorted|;
    assert s[0] in sorted;
    assert sorted[0] in multiset(s);
    var i :| 0 <= i < |sorted| && sorted[i] == s[0];
    var j :| 0 <= j < |s| && s[j] == sorted[0];
    assert j > 0 ==> BytesLess(s[0], s[j]);
    assert i > 0 ==> !BytesLess(sorted[i], sorted[0]);
  }

  /** A strictly increasing list has one sort result, itself: sorting the enumerated hosts changes nothing. */
  lemma {:induction false} SortKeeps(s: seq<Ip>, sorted: seq<Ip>)
    requires Increasing(s) && SortOf(sorted, s)
    ensures sorted == s
  {
    if s == [] {
      assert |multiset(sorted)| == |sorted|;
    } else {
      SameLeast(s, sorted);
      assert s == [s[0]] + s[1..] && sorted == [s[0]] + sorted[1..];
      assert multiset(sorted[1..]) == multiset(sorted) - multiset{s[0]} == multiset(s[1..]);
      SortKeeps(s[1..], sorted[1..]);
    }
  }
}
