/** Reading the kernel's peer table: `parseDump` of `internal/wireguard/syncer.go`. */
module Dump {
  import opened Wrappers
  import Numbers
  import Sync
  import Text

  const MIN_INT64 := -0x8000_0000_0000_0000
  const MAX_INT64 := 0x7fff_ffff_ffff_ffff

  /** `parseI64`: no number counts as 0, one out of range as the nearest bound. */
  function ParseI64(s: string): int
  {
    var t := Text.Trim(s);
    var signed := t != "" && (t[0] == '-' || t[0] == '+');
    match Numbers.Parse(if signed then t[1..] else t, 10)
    case None => 0
    case Some(n) =>
      var v: int := if signed && t[0] == '-' then 0 - n else n;
      if v < MIN_INT64 then MIN_INT64 else if v > MAX_INT64 then MAX_INT64 else v
  }

  function NormalizeNone(v: string): string
  {
    if v == "(none)" then "" else v
  }

  function PeerOf(fields: seq<string>): Sync.Peer
    requires |fields| >= 8
  {
    Sync.Peer(fields[0], NormalizeNone(fields[2]), ParseI64(fields[4]), ParseI64(fields[5]), ParseI64(fields[6]))
  }

  function Prepend(front: seq<Sync.Peer>, rest: Option<seq<Sync.Peer>>): Option<seq<Sync.Peer>>
  {
    match rest
    case None => None
    case Some(ps) => Some(front + ps)
  }

  function ParsePeers(lines: seq<string>): Option<seq<Sync.Peer>>
  {
    if lines == [] then Some([])
    else if Text.Trim(lines[0]) == "" then ParsePeers(lines[1..])
    else if |Text.Split(lines[0], '\t')| < 8 then None
    else Prepend([PeerOf(Text.Split(lines[0], '\t'))], ParsePeers(lines[1..]))
  }

  /** None for the two errors: an empty dump, or a peer line with fewer than eight fields. */
  function Parse(output: string): Option<seq<Sync.Peer>>
  {
    var lines := Text.Split(Text.Trim(output), '\n');
    if Text.Trim(lines[0]) == "" then None else ParsePeers(lines[1..])
  }

  lemma PrependNext(front: seq<Sync.Peer>, p: Sync.Peer, rest: Option<seq<Sync.Peer>>)
    ensures Prepend(front + [p], rest) == Prepend(front, Prepend([p], rest))
  {
    if rest.Some? {
      assert front + [p] + rest.value == front + ([p] + rest.value);
    }
  }

  lemma PrependNone(rest: Option<seq<Sync.Peer>>)
    ensures Prepend([], rest) == rest
  {
    if rest.Some? {
      assert [] + rest.value == rest.value;
    }
  }

  method ParseDump(output: string) returns (out: Option<seq<Sync.Peer>>)
    ensures out == Parse(output)
  {
    var lines := Text.Split(Text.Trim(output), '\n');
    if Text.Trim(lines[0]) == "" {
      return None;
    }
    var peers := [];
    PrependNone(ParsePeers(lines[1..]));
    var i := 1;
    while i < |lines|
      invariant 1 <= i <= |lines|
      invariant ParsePeers(lines[1..]) == Prepend(peers, ParsePeers(lines[i..]))
    {
      var line := lines[i];
      assert lines[i..][1..] == lines[i + 1..];
      i := i + 1;
      if Text.Trim(line) == "" {
        continue;
      }
      var fields := Text.Split(line, '\t');
      if |fields| < 8 {
        return None;
      }
      PrependNext(peers, PeerOf(fields), ParsePeers(lines[i..]));
      peers := peers + [PeerOf(fields)];
    }
    assert peers + [] == peers;
    out := Some(peers);
  }

  /** One short line spoils the whole dump. */
  lemma {:induction false} RefusedExactly(lines: seq<string>)
    ensures ParsePeers(lines) == None
       <==> exists i :: 0 <= i < |lines| && Text.Trim(lines[i]) != "" && |Text.Split(lines[i], '\t')| < 8
  {
    if lines != [] {
      RefusedExactly(lines[1..]);
      assert forall i :: 0 < i < |lines| ==> lines[i] == lines[1..][i - 1];
    }
  }

  lemma FirstLineIsNotBlank(t: string)
    requires t != "" && Text.Trimmed(t)
    ensures Text.Trim(Text.Split(t, '\n')[0]) != ""
  {
    var first := Text.Split(t, '\n')[0];
    var rest := Text.SplitHead(t, '\n');
    assert first != "" && first[0] == t[0];
    Text.TrimRightKeeps(first, 0);
  }

  /** A dump is refused when it is blank, or some line after the first is not blank and has under eight fields. */
  lemma DumpRefusedExactly(output: string)
    ensures var lines := Text.Split(Text.Trim(output), '\n');
            Parse(output) == None
            <==> Text.Trim(output) == ""
                 || exists i :: 1 <= i < |lines| && Text.Trim(lines[i]) != "" && |Text.Split(lines[i], '\t')| < 8
  {
    var t := Text.Trim(output);
    var lines := Text.Split(t, '\n');
    Text.TrimIsTrimmed(output);
    if t == "" {
      assert lines == [""];
    } else {
      FirstLineIsNotBlank(t);
      RefusedExactly(lines[1..]);
      assert forall i :: 0 <= i < |lines| - 1 ==> lines[1..][i] == lines[i + 1];
      assert forall i :: 1 <= i < |lines| ==> lines[i] == lines[1..][i - 1];
    }
  }

  // ---------- What the kernel tool prints ----------

  datatype Entry = Entry(publicKey: string, presharedKey: string, endpoint: string, allowedIPs: string,
                         handshake: nat, rx: nat, tx: nat, keepalive: string)

  function Fields(e: Entry): seq<string>
  {
    [e.publicKey, e.presharedKey, e.endpoint, e.allowedIPs, Numbers.Print(e.handshake, 10), Numbers.Print(e.rx, 10),
     Numbers.Print(e.tx, 10), e.keepalive]
  }

  function LinesOf(es: seq<Entry>): (lines: seq<string>)
    ensures |lines| == |es|
  {
    seq(|es|, i requires 0 <= i < |es| => Text.Join(Fields(es[i]), ['\t']))
  }

  function Printed(iface: string, es: seq<Entry>): string
  {
    Text.Join([iface] + LinesOf(es), ['\n']) + ['\n']
  }

  predicate Plain(s: string)
  {
    forall c :: c in s ==> !Text.IsSpace(c)
  }

  predicate PlainEntry(e: Entry)
  {
    e.publicKey != "" && e.keepalive != ""
    && (forall i :: 0 <= i < 8 ==> '\t' !in Fields(e)[i] && '\n' !in Fields(e)[i])
    && Plain(e.publicKey) && Plain(e.keepalive)
    && e.handshake <= MAX_INT64 && e.rx <= MAX_INT64 && e.tx <= MAX_INT64
  }

  lemma TrimNewline(t: string)
    requires t != "" && Text.Trimmed(t)
    ensures Text.Trim(t + ['\n']) == t
  {
    var s := t + ['\n'];
    assert s[0] == t[0];
    assert Text.TrimLeft(s) == s;
    assert s[..|s| - 1] == t;
    assert Text.TrimRight(s) == Text.TrimRight(t);
  }

  /** Every integer is read back, from within white space and up to the bounds of 64 bits. */
  lemma ReadInteger(left: string, n: int, right: string)
    requires Text.Space(left) && Text.Space(right)
    ensures ParseI64(left + Numbers.PrintInt(n) + right)
         == if n < -0x8000_0000_0000_0000 then -0x8000_0000_0000_0000
            else if n > 0x7fff_ffff_ffff_ffff then 0x7fff_ffff_ffff_ffff else n
  {
    var t := Numbers.PrintInt(n);
    var digits := Numbers.Print(if n < 0 then -n else n, 10);
    Numbers.ParsePrint(if n < 0 then -n else n, 10);
    assert Numbers.IsDigit(digits[0], 10) && Numbers.IsDigit(digits[|digits| - 1], 10);
    assert n < 0 ==> t[1..] == digits;
    Text.TrimPadded(left, t, right);
  }

  /** Digits and nothing else, with an optional sign in front. */
  predicate IsNumeral(t: string)
  {
    var digits := if t != "" && (t[0] == '-' || t[0] == '+') then t[1..] else t;
    digits != "" && forall i :: 0 <= i < |digits| ==> '0' <= digits[i] <= '9'
  }

  /** Any other text counts as 0. */
  lemma NoNumberIsZero(s: string)
    requires !IsNumeral(Text.Trim(s))
    ensures ParseI64(s) == 0
  {
    var t := Text.Trim(s);
    var digits := if t != "" && (t[0] == '-' || t[0] == '+') then t[1..] else t;
    forall i | 0 <= i < |digits| && Numbers.IsDigit(digits[i], 10) ensures '0' <= digits[i] <= '9' {
    }
  }

  lemma ReadNumber(n: nat)
    requires n <= MAX_INT64
    ensures ParseI64(Numbers.Print(n, 10)) == n
  {
    ReadInteger("", n, "");
    assert "" + Numbers.PrintInt(n) + "" == Numbers.Print(n, 10);
  }

  function PeerPrinted(e: Entry): Sync.Peer
  {
    Sync.Peer(e.publicKey, if e.endpoint == "(none)" then "" else e.endpoint, e.handshake, e.rx, e.tx)
  }

  /** A line that is not blank and reads as `p`. */
  predicate PeerLine(line: string, p: Sync.Peer)
  {
    line != "" && Text.Trimmed(line) && '\n' !in line
    && |Text.Split(line, '\t')| >= 8 && PeerOf(Text.Split(line, '\t')) == p
  }

  lemma ReadFields(e: Entry)
    requires PlainEntry(e)
    ensures PeerOf(Fields(e)) == PeerPrinted(e)
  {
    ReadNumber(e.handshake);
    ReadNumber(e.rx);
    ReadNumber(e.tx);
  }

  lemma ReadLine(e: Entry)
    requires PlainEntry(e)
    ensures PeerLine(Text.Join(Fields(e), ['\t']), PeerPrinted(e))
  {
    var f := Fields(e);
    ReadFields(e);
    Text.SplitJoin(f, '\t');
    Text.JoinEnds(f, ['\t']);
    Text.JoinFree(f, ['\t'], '\n');
    assert e.publicKey[0] in e.publicKey && e.keepalive[|e.keepalive| - 1] in e.keepalive;
  }

  function PeersPrinted(es: seq<Entry>): (ps: seq<Sync.Peer>)
    ensures |ps| == |es|
  {
    seq(|es|, i requires 0 <= i < |es| => PeerPrinted(es[i]))
  }

  lemma ReadFirst(line: string, rest: seq<string>, p: Sync.Peer)
    requires PeerLine(line, p)
    ensures ParsePeers([line] + rest) == Prepend([p], ParsePeers(rest))
  {
    Text.TrimOfTrimmed(line);
    assert ([line] + rest)[1..] == rest;
  }

  ghost predicate PeerLines(lines: seq<string>, peers: seq<Sync.Peer>)
  {
    |lines| == |peers| && forall i :: 0 <= i < |lines| ==> PeerLine(lines[i], peers[i])
  }

  lemma PeerLinesRest(lines: seq<string>, peers: seq<Sync.Peer>)
    requires PeerLines(lines, peers) && lines != []
    ensures PeerLine(lines[0], peers[0]) && PeerLines(lines[1..], peers[1..])
  {
  }

  lemma {:induction false} ReadLines(lines: seq<string>, peers: seq<Sync.Peer>)
    requires PeerLines(lines, peers)
    ensures ParsePeers(lines) == Some(peers)
  {
    if lines != [] {
      var rest := lines[1..];
      PeerLinesRest(lines, peers);
      ReadLines(rest, peers[1..]);
      ReadFirst(lines[0], rest, peers[0]);
      assert lines == [lines[0]] + rest;
      assert peers == [peers[0]] + peers[1..];
    }
  }

  predicate OnePiece(s: string)
  {
    s != "" && Text.Trimmed(s) && '\n' !in s
  }

  lemma SplitTrimmed(parts: seq<string>)
    requires parts != [] && forall i :: 0 <= i < |parts| ==> OnePiece(parts[i])
    ensures Text.Split(Text.Trim(Text.Join(parts, ['\n']) + ['\n']), '\n') == parts
  {
    assert OnePiece(parts[0]) && OnePiece(parts[|parts| - 1]);
    Text.JoinEnds(parts, ['\n']);
    TrimNewline(Text.Join(parts, ['\n']));
    Text.SplitJoin(parts, '\n');
  }

  lemma LinesArePieces(lines: seq<string>, peers: seq<Sync.Peer>)
    requires PeerLines(lines, peers)
    ensures forall i :: 0 <= i < |lines| ==> OnePiece(lines[i])
  {
    forall i | 0 <= i < |lines| ensures OnePiece(lines[i]) {
      assert PeerLine(lines[i], peers[i]);
    }
  }

  /** A first line that is not blank, then peer lines, each ended by a line break. */
  lemma ParseJoined(iface: string, lines: seq<string>, peers: seq<Sync.Peer>)
    requires OnePiece(iface) && PeerLines(lines, peers)
    ensures Parse(Text.Join([iface] + lines, ['\n']) + ['\n']) == Some(peers)
  {
    LinesArePieces(lines, peers);
    SplitTrimmed([iface] + lines);
    Text.TrimOfTrimmed(iface);
    assert ([iface] + lines)[1..] == lines;
    ReadLines(lines, peers);
  }

  /** Reading what the kernel tool prints gives every peer in order, with its key, endpoint and counters. */
  lemma DumpReadsBack(iface: string, es: seq<Entry>)
    requires OnePiece(iface)
    requires forall i :: 0 <= i < |es| ==> PlainEntry(es[i])
    ensures Parse(Printed(iface, es)) == Some(PeersPrinted(es))
  {
    var lines, peers := LinesOf(es), PeersPrinted(es);
    forall i | 0 <= i < |lines| ensures PeerLine(lines[i], peers[i]) {
      ReadLine(es[i]);
    }
    ParseJoined(iface, lines, peers);
  }
}
