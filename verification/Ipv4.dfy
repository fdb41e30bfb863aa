/**
 * Dotted IPv4 text: printing, Go's `net.ParseIP` and `net.ParseCIDR` restricted to it, and
 * `internal/pcq/tunnel.go`.
 */
module Ipv4 {
  import opened Wrappers
  import Numbers
  import Text

  type Byte = x: int | 0 <= x < 256

  datatype Ip = Ip(a: Byte, b: Byte, c: Byte, d: Byte)

  function Octet(x: Byte): string
  {
    Numbers.Print(x, 10)
  }

  function Dotted(a: string, b: string, c: string, d: string): string
  {
    a + ['.'] + (b + ['.'] + (c + ['.'] + d))
  }

  /** `IP.String` of an IPv4 address. */
  function String(ip: Ip): string
  {
    Dotted(Octet(ip.a), Octet(ip.b), Octet(ip.c), Octet(ip.d))
  }

  /** One to three digits, no leading zero, at most 255. */
  function ReadOctet(s: string): Option<Byte>
  {
    if |s| > 1 && s[0] == '0' then None
    else match Numbers.Parse(s, 10)
      case Some(v) => if v < 256 then Some(v) else None
      case None => None
  }

  /** `net.ParseIP(s).To4()` on dotted text. */
  function ParseIP(s: string): Option<Ip>
  {
    var parts := Text.Split(s, '.');
    if |parts| != 4 then None
    else match (ReadOctet(parts[0]), ReadOctet(parts[1]), ReadOctet(parts[2]), ReadOctet(parts[3]))
      case (Some(a), Some(b), Some(c), Some(d)) => Some(Ip(a, b, c, d))
      case _ => None
  }

  /** `net.ParseCIDR`: the address as written and the prefix length. */
  function ParseCIDR(s: string): Option<(Ip, nat)>
  {
    match Text.IndexOf(s, '/')
    case None => None
    case Some(i) =>
      match (ParseIP(s[..i]), Numbers.Parse(s[i + 1..], 10))
      case (Some(ip), Some(n)) => if n <= 32 then Some((ip, n)) else None
      case _ => None
  }

  lemma ReadOctetOfOctet(x: Byte)
    ensures ReadOctet(Octet(x)) == Some(x)
    ensures forall c :: c in Octet(x) ==> Numbers.IsDigit(c, 10)
  {
    Numbers.ParsePrint(x, 10);
  }

  /** Reading back what `String` prints; its characters are digits and dots. */
  lemma ParseIPOfString(ip: Ip)
    ensures ParseIP(String(ip)) == Some(ip)
  {
    var a, b, c, d := Octet(ip.a), Octet(ip.b), Octet(ip.c), Octet(ip.d);
    ReadOctetOfOctet(ip.a);
    ReadOctetOfOctet(ip.b);
    ReadOctetOfOctet(ip.c);
    ReadOctetOfOctet(ip.d);
    SplitDotted(a, b, c, d);
  }

  lemma ReadOctetExact(s: string, x: Byte)
    ensures ReadOctet(s) == Some(x) <==> s == Octet(x)
  {
    ReadOctetOfOctet(x);
    if ReadOctet(s) == Some(x) {
      Numbers.PrintParse(s, 10);
    }
  }

  lemma FourPieces(s: string)
    requires |Text.Split(s, '.')| == 4
    ensures var p := Text.Split(s, '.');
            s == Dotted(p[0], p[1], p[2], p[3])
  {
    var p := Text.Split(s, '.');
    var bcd := Text.SplitHead(s, '.');
    var cd := Text.SplitHead(bcd, '.');
    var d := Text.SplitHead(cd, '.');
    var none := Text.SplitHead(d, '.');
    assert bcd == p[1] + ['.'] + cd;
    assert cd == p[2] + ['.'] + p[3];
  }

  /** The texts that are addresses are the printed ones: no sign, no zero in front, no number above 255. */
  lemma ParseIPExact(s: string, ip: Ip)
    ensures ParseIP(s) == Some(ip) <==> s == String(ip)
  {
    ParseIPOfString(ip);
    if ParseIP(s) == Some(ip) {
      var p := Text.Split(s, '.');
      ReadOctetExact(p[0], ip.a);
      ReadOctetExact(p[1], ip.b);
      ReadOctetExact(p[2], ip.c);
      ReadOctetExact(p[3], ip.d);
      FourPieces(s);
    }
  }

  /** A printed address is text without space or comma. */
  lemma StringIsTrimmed(ip: Ip)
    ensures String(ip) != "" && Text.Trimmed(String(ip)) && ',' !in String(ip)
  {
    var host := String(ip);
    forall c | c in host ensures !Text.IsSpace(c) && c != ',' {
      StringCharacters(ip, c);
    }
    assert Octet(ip.a) <= host;
  }

  lemma SplitTwo(c: string, d: string)
    requires '.' !in c && '.' !in d
    ensures Text.Split(c + ['.'] + d, '.') == [c, d]
  {
    Text.SplitFirst(c, '.', d);
    Text.SplitFirst(d, '.', "");
    assert [c] + [d] == [c, d];
  }

  lemma SplitDotted(a: string, b: string, c: string, d: string)
    requires '.' !in a && '.' !in b && '.' !in c && '.' !in d
    ensures Text.Split(Dotted(a, b, c, d), '.') == [a, b, c, d]
  {
    var cd := c + ['.'] + d;
    var bcd := b + ['.'] + cd;
    SplitTwo(c, d);
    Text.SplitFirst(b, '.', cd);
    Text.SplitFirst(a, '.', bcd);
    assert [a] + ([b] + [c, d]) == [a, b, c, d];
  }

  lemma StringCharacters(ip: Ip, k: char)
    requires k in String(ip)
    ensures Numbers.IsDigit(k, 10) || k == '.'
  {
    ReadOctetOfOctet(ip.a);
    ReadOctetOfOctet(ip.b);
    ReadOctetOfOctet(ip.c);
    ReadOctetOfOctet(ip.d);
  }

  // ---------- The allowed_ips column ----------

  /** The segment before the first comma. */
  function FirstTunnelIPCIDR(allowedIPs: string): string
  {
    var s := Text.Trim(allowedIPs);
    match Text.IndexOf(s, ',')
    case None => s
    case Some(i) => Text.Trim(s[..i])
  }

  lemma FirstIsTrimmed(allowedIPs: string)
    ensures Text.Trimmed(FirstTunnelIPCIDR(allowedIPs))
  {
    var s := Text.Trim(allowedIPs);
    Text.TrimIsTrimmed(allowedIPs);
    match Text.IndexOf(s, ',') {
      case None =>
      case Some(i) => Text.TrimIsTrimmed(s[..i]);
    }
  }

  /** The dotted address of the first segment, or the empty string. */
  function TunnelIPv4(allowedIPs: string): string
  {
    var s := Text.Trim(FirstTunnelIPCIDR(allowedIPs));
    if s == "" then ""
    else if '/' in s then
      (match ParseCIDR(s)
       case None => ""
       case Some(p) => String(p.0))
    else
      match ParseIP(s)
      case None => ""
      case Some(ip) => String(ip)
  }

  /** `firstIPv4InAllowedIPs` of `internal/wireguard/peers.go`: the first segment that is an IPv4 address. */
  function FirstIPv4InAllowedIPs(s: string): Option<Ip>
  {
    FirstIPv4(Text.Split(s, ','))
  }

  function FirstIPv4(parts: seq<string>): Option<Ip>
  {
    if parts == [] then None
    else
      var p := Text.Trim(parts[0]);
      var ipStr := match Text.IndexOf(p, '/') case Some(i) => p[..i] case None => p;
      if p != "" && ParseIP(ipStr).Some? then ParseIP(ipStr) else FirstIPv4(parts[1..])
  }

  /** The column for an allocated address followed by further prefixes, as the handlers store it. */
  function Column(ip: Ip, extra: string): string
  {
    var host := String(ip) + "/32";
    if extra == "" then host else host + ", " + extra
  }

  lemma HostCharacters(ip: Ip)
    ensures var host := String(ip) + "/32";
            ',' !in host && Text.Trimmed(host) && '/' !in String(ip) && !Text.IsSpace(host[0])
  {
    forall k | k in String(ip) ensures k != ',' && k != '/' && !Text.IsSpace(k) {
      StringCharacters(ip, k);
    }
    assert Octet(ip.a) <= String(ip);
    assert String(ip)[0] in String(ip);
  }

  /** An address with a prefix length of up to 32 bits reads back; a longer one is refused. */
  lemma ParseCIDROfText(ip: Ip, length: string)
    ensures Text.IndexOf(String(ip) + "/" + length, '/') == Some(|String(ip)|)
    ensures ParseCIDR(String(ip) + "/" + length)
         == match Numbers.Parse(length, 10)
            case Some(n) => if n <= 32 then Some((ip, n)) else None
            case None => None
  {
    var host := String(ip);
    var s := host + "/" + length;
    HostCharacters(ip);
    ParseIPOfString(ip);
    Text.IndexOfPrefix(host, '/', length);
    assert s == host + ['/'] + length;
    assert s[..|host|] == host && s[|host| + 1..] == length;
  }

  lemma ParseCIDROfPrinted(ip: Ip, n: nat)
    ensures ParseCIDR(String(ip) + "/" + Numbers.Print(n, 10)) == if n <= 32 then Some((ip, n)) else None
  {
    ParseCIDROfText(ip, Numbers.Print(n, 10));
    Numbers.ParsePrint(n, 10);
  }

  /** Nothing else is read: a block is an address, a slash and a numeral of at most 32. */
  lemma ParseCIDRExact(s: string, ip: Ip, n: nat)
    ensures ParseCIDR(s) == Some((ip, n))
       <==> exists length :: s == String(ip) + "/" + length && Numbers.Parse(length, 10) == Some(n) && n <= 32
  {
    if ParseCIDR(s) == Some((ip, n)) {
      Text.IndexOfFinds(s, '/');
      var i := Text.IndexOf(s, '/').value;
      ParseIPExact(s[..i], ip);
      assert s == String(ip) + "/" + s[i + 1..];
    }
    forall length | s == String(ip) + "/" + length && Numbers.Parse(length, 10) == Some(n) && n <= 32
      ensures ParseCIDR(s) == Some((ip, n))
    {
      ParseCIDROfText(ip, length);
    }
  }

  lemma Print32()
    ensures Numbers.Print(32, 10) == "32"
  {
    assert Numbers.Print(3, 10) == "3";
  }

  lemma ParseHost(ip: Ip)
    ensures ParseCIDR(String(ip) + "/32") == Some((ip, 32))
    ensures Text.IndexOf(String(ip) + "/32", '/') == Some(|String(ip)|)
  {
    Print32();
    Text.ConcatAssociative(String(ip), "/", "32");
    assert "/" + "32" == "/32";
    ParseCIDROfText(ip, "32");
    ParseCIDROfPrinted(ip, 32);
  }

  lemma ColumnFirstSegment(ip: Ip, extra: string)
    requires Text.Trimmed(extra)
    ensures FirstTunnelIPCIDR(Column(ip, extra)) == String(ip) + "/32"
  {
    var host := String(ip) + "/32";
    var s := Column(ip, extra);
    HostCharacters(ip);
    assert s[0] == host[0];
    Text.TrimOfTrimmed(s);
    if extra != "" {
      assert s == host + [','] + (" " + extra);
      Text.IndexOfPrefix(host, ',', " " + extra);
      assert s[..|host|] == host;
      Text.TrimOfTrimmed(host);
    } else {
      Text.IndexOfFinds(host, ',');
    }
  }

  lemma FirstIPv4OfHost(ip: Ip, rest: seq<string>)
    ensures FirstIPv4([String(ip) + "/32"] + rest) == Some(ip)
  {
    var host := String(ip) + "/32";
    HostCharacters(ip);
    ParseHost(ip);
    Text.TrimOfTrimmed(host);
    ParseIPOfString(ip);
    assert host[..|String(ip)|] == String(ip);
  }

  lemma ColumnTunnel(ip: Ip, column: string)
    requires FirstTunnelIPCIDR(column) == String(ip) + "/32"
    ensures TunnelIPv4(column) == String(ip)
  {
    var host := String(ip) + "/32";
    ParseHost(ip);
    Text.TrimOfTrimmed(host);
    assert host[|String(ip)|] == '/';
  }

  lemma ColumnUsed(ip: Ip, extra: string)
    ensures FirstIPv4InAllowedIPs(Column(ip, extra)) == Some(ip)
  {
    var host := String(ip) + "/32";
    HostCharacters(ip);
    if extra == "" {
      Text.SplitFirst(host, ',', "");
      FirstIPv4OfHost(ip, []);
      assert [host] + [] == [host];
    } else {
      assert Column(ip, extra) == host + [','] + (" " + extra);
      Text.SplitFirst(host, ',', " " + extra);
      FirstIPv4OfHost(ip, Text.Split(" " + extra, ','));
    }
  }

  /**
   * The column of an allocated address has that address as its first segment, whatever prefixes
   * follow: for the client config, for the shaping map and for the allocator's used set.
   */
  lemma ColumnReadsBack(ip: Ip, extra: string)
    requires Text.Trimmed(extra)
    ensures FirstTunnelIPCIDR(Column(ip, extra)) == String(ip) + "/32"
    ensures TunnelIPv4(Column(ip, extra)) == String(ip)
    ensures FirstIPv4InAllowedIPs(Column(ip, extra)) == Some(ip)
  {
    ColumnFirstSegment(ip, extra);
    ColumnTunnel(ip, Column(ip, extra));
    ColumnUsed(ip, extra);
  }

  // ---------- Columns as they are typed ----------

  /** What may stand behind an address in its segment: nothing, or a slash and more. */
  predicate Suffix(s: string)
  {
    s == "" || s[0] == '/'
  }

  lemma UpToSlash(ip: Ip, suffix: string)
    requires Suffix(suffix)
    ensures var s := String(ip) + suffix;
            (match Text.IndexOf(s, '/') case Some(i) => s[..i] case None => s) == String(ip)
  {
    var host := String(ip);
    HostCharacters(ip);
    if suffix == "" {
      assert host + suffix == host;
      Text.IndexOfFinds(host, '/');
    } else {
      assert host + suffix == host + ['/'] + suffix[1..];
      Text.IndexOfPrefix(host, '/', suffix[1..]);
    }
  }

  lemma CutSegment(p: string)
    ensures var cut := match Text.IndexOf(p, '/') case Some(i) => p[..i] case None => p;
            cut <= p && Suffix(p[|cut|..])
  {
    Text.IndexOfFinds(p, '/');
  }

  lemma OneSegment(s: string)
    requires ',' !in s
    ensures var p := Text.Trim(s);
            var cut := match Text.IndexOf(p, '/') case Some(i) => p[..i] case None => p;
            FirstIPv4InAllowedIPs(s) == if p != "" then ParseIP(cut) else None
  {
    Text.SplitFirst(s, ',', "");
    assert FirstIPv4([]) == None;
    assert [s][0] == s && [s][1..] == [];
    assert FirstIPv4([s]).Some? || FirstIPv4([s]) == FirstIPv4([]);
  }

  /** One segment names an address when it is that address, alone or with a slash and anything behind it. */
  lemma SegmentIsRead(s: string, ip: Ip)
    requires ',' !in s
    ensures FirstIPv4InAllowedIPs(s) == Some(ip)
       <==> String(ip) <= Text.Trim(s) && Suffix(Text.Trim(s)[|String(ip)|..])
  {
    var p := Text.Trim(s);
    var cut := match Text.IndexOf(p, '/') case Some(i) => p[..i] case None => p;
    OneSegment(s);
    ParseIPExact(cut, ip);
    CutSegment(p);
    StringIsTrimmed(ip);
    if String(ip) <= p && Suffix(p[|String(ip)|..]) {
      UpToSlash(ip, p[|String(ip)|..]);
      assert p == String(ip) + p[|String(ip)|..];
    }
  }

  lemma {:induction false} FirstIPv4Concat(a: seq<string>, b: seq<string>)
    ensures FirstIPv4(a + b) == if FirstIPv4(a).Some? then FirstIPv4(a) else FirstIPv4(b)
    decreases |a|
  {
    if a == [] {
      assert a + b == b;
    } else {
      assert (a + b)[1..] == a[1..] + b;
      FirstIPv4Concat(a[1..], b);
    }
  }

  /** Of a list of segments the first that names an address decides. */
  lemma FirstSegmentDecides(a: string, b: string)
    ensures FirstIPv4InAllowedIPs(a + "," + b)
         == if FirstIPv4InAllowedIPs(a).Some? then FirstIPv4InAllowedIPs(a) else FirstIPv4InAllowedIPs(b)
  {
    assert a + "," + b == a + [','] + b;
    Text.SplitConcat(a, ',', b);
    FirstIPv4Concat(Text.Split(a, ','), Text.Split(b, ','));
  }

  lemma FirstOfColumn(segment: string, rest: string)
    requires ',' !in segment && Text.Trimmed(segment) && segment != ""
    ensures FirstTunnelIPCIDR(segment) == segment && FirstTunnelIPCIDR(segment + "," + rest) == segment
  {
    var s := segment + "," + rest;
    Text.TrimOfTrimmed(segment);
    Text.IndexOfFinds(segment, ',');
    assert s[0] == segment[0] && s[|segment|] == ',';
    Text.TrimRightKeeps(s, |segment|);
    var t := Text.Trim(s);
    assert t[..|segment| + 1] == s[..|segment| + 1] == segment + [','];
    assert t == segment + [','] + t[|segment| + 1..];
    Text.IndexOfPrefix(segment, ',', t[|segment| + 1..]);
    assert t[..|segment|] == segment;
  }

  /**
   * The shaping key of a column is its first segment's address: bare, or with a prefix length of at most 32.
   * With a longer one there is none, whatever follows.
   */
  lemma TunnelIsRead(ip: Ip, n: nat, rest: string)
    ensures TunnelIPv4(String(ip)) == TunnelIPv4(String(ip) + "," + rest) == String(ip)
    ensures var block := String(ip) + "/" + Numbers.Print(n, 10);
            TunnelIPv4(block) == TunnelIPv4(block + "," + rest) == if n <= 32 then String(ip) else ""
  {
    var host := String(ip);
    var block := host + "/" + Numbers.Print(n, 10);
    StringIsTrimmed(ip);
    HostCharacters(ip);
    ParseIPOfString(ip);
    ParseCIDROfPrinted(ip, n);
    FirstOfColumn(host, rest);
    Text.TrimOfTrimmed(host);
    BlockIsSegment(ip, n);
    FirstOfColumn(block, rest);
    Text.TrimOfTrimmed(block);
    assert block[|host|] == '/';
  }

  lemma BlockIsSegment(ip: Ip, n: nat)
    ensures var block := String(ip) + "/" + Numbers.Print(n, 10);
            ',' !in block && Text.Trimmed(block) && block != ""
  {
    var host, length := String(ip), Numbers.Print(n, 10);
    StringIsTrimmed(ip);
    assert forall i :: 0 <= i < |length| ==> Numbers.IsDigit(length[i], 10);
    assert (host + "/" + length)[0] == host[0];
    assert (host + "/" + length)[|host| + |length|] == length[|length| - 1];
  }
}
