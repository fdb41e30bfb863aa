/** The string operations that the source takes from Go's `strings` package, on ASCII text. */
module Text {
  import opened Wrappers

  predicate IsSpace(c: char)
  {
    c == ' ' || c == '\t' || c == '\n' || c == '\r' || c == '\U{0B}' || c == '\U{0C}'
  }

  function TrimLeft(s: string): (t: string)
    ensures |t| <= |s|
  {
    if s != "" && IsSpace(s[0]) then TrimLeft(s[1..]) else s
  }

  function TrimRight(s: string): (t: string)
    ensures |t| <= |s|
  {
    if s != "" && IsSpace(s[|s| - 1]) then TrimRight(s[..|s| - 1]) else s
  }

  /** `strings.TrimSpace`. */
  function Trim(s: string): string
  {
    TrimRight(TrimLeft(s))
  }

  predicate Trimmed(s: string)
  {
    s == "" || (!IsSpace(s[0]) && !IsSpace(s[|s| - 1]))
  }

  lemma {:induction false} TrimLeftDrops(s: string)
    ensures var t := TrimLeft(s);
            t == s[|s| - |t|..] && (t == "" || !IsSpace(t[0]))
  {
    if s != "" && IsSpace(s[0]) {
      TrimLeftDrops(s[1..]);
    }
  }

  lemma {:induction false} TrimRightDrops(s: string)
    ensures TrimRight(s) <= s && (TrimRight(s) == "" || !IsSpace(TrimRight(s)[|TrimRight(s)| - 1]))
  {
    if s != "" && IsSpace(s[|s| - 1]) {
      TrimRightDrops(s[..|s| - 1]);
    }
  }

  /** Trimming removes all space at both ends and keeps a part of the string. */
  lemma TrimIsTrimmed(s: string)
    ensures Trimmed(Trim(s))
    ensures forall c :: c in Trim(s) ==> c in s
  {
    TrimLeftDrops(s);
    TrimRightDrops(TrimLeft(s));
  }

  lemma TrimOfTrimmed(s: string)
    requires Trimmed(s)
    ensures Trim(s) == s
  {
  }

  /** The six characters of ASCII white space. */
  predicate Space(s: string)
  {
    forall c :: c in s ==> c in " \t\n\r\U{0B}\U{0C}"
  }

  lemma {:induction false} TrimLeftPadded(left: string, t: string)
    requires Space(left)
    ensures TrimLeft(left + t) == TrimLeft(t)
  {
    if left == "" {
      assert left + t == t;
    } else {
      assert left[0] in left && (left + t)[1..] == left[1..] + t;
      TrimLeftPadded(left[1..], t);
    }
  }

  lemma {:induction false} TrimRightPadded(t: string, right: string)
    requires Space(right)
    ensures TrimRight(t + right) == TrimRight(t)
  {
    if right == "" {
      assert t + right == t;
    } else {
      var n := |right| - 1;
      assert right[n] in right && (t + right)[..|t| + n] == t + right[..n];
      TrimRightPadded(t, right[..n]);
    }
  }

  /** Whatever white space surrounds a text, trimming gives the text. */
  lemma TrimPadded(left: string, t: string, right: string)
    requires Space(left) && Space(right) && Trimmed(t)
    ensures Trim(left + t + right) == t
  {
    ConcatAssociative(left, t, right);
    TrimLeftPadded(left, t + right);
    if t == "" {
      assert t + right == right + "";
      TrimLeftPadded(right, "");
    } else {
      assert (t + right)[0] == t[0];
      TrimRightPadded(t, right);
    }
  }

  /** A text is what trimming leaves, between white space. */
  lemma TrimSplits(s: string) returns (left: string, right: string)
    ensures s == left + Trim(s) + right && Space(left) && Space(right)
  {
    var t := TrimLeft(s);
    TrimLeftDrops(s);
    TrimRightDrops(t);
    left, right := s[..|s| - |t|], t[|Trim(s)|..];
    LeftIsSpace(s);
    RightIsSpace(t);
  }

  lemma {:induction false} LeftIsSpace(s: string)
    ensures Space(s[..|s| - |TrimLeft(s)|])
  {
    if s != "" && IsSpace(s[0]) {
      LeftIsSpace(s[1..]);
      var k := |s| - |TrimLeft(s)|;
      assert s[..k] == [s[0]] + s[1..][..k - 1];
    }
  }

  lemma {:induction false} RightIsSpace(s: string)
    ensures Space(s[|TrimRight(s)|..])
  {
    if s != "" && IsSpace(s[|s| - 1]) {
      var n := |s| - 1;
      RightIsSpace(s[..n]);
      assert s[|TrimRight(s)|..] == s[..n][|TrimRight(s)|..] + [s[n]];
    }
  }

  /** More white space at an end changes nothing. */
  lemma TrimMore(c: char, s: string)
    requires Space([c])
    ensures Trim([c] + s) == Trim(s) && Trim(s + [c]) == Trim(s)
  {
    var left, right := TrimSplits(s);
    var t := Trim(s);
    TrimIsTrimmed(s);
    assert Space([c] + left) && Space(right + [c]);
    TrimPadded([c] + left, t, right);
    TrimPadded(left, t, right + [c]);
    assert [c] + s == [c] + left + t + right && s + [c] == left + t + (right + [c]);
  }

  lemma TrimSkipsSpace(s: string)
    ensures Trim(" " + s) == Trim(s)
  {
    assert (" " + s)[1..] == s;
  }

  lemma TrimDropsLast(t: string)
    requires t != "" && Trimmed(t)
    ensures Trim(t + " ") == t
  {
    var s := t + " ";
    assert s[0] == t[0];
    assert TrimLeft(s) == s;
    assert s[|s| - 1] == ' ' && s[..|s| - 1] == t;
    assert TrimRight(s) == TrimRight(t);
  }

  /** `strings.IndexByte`: the first position of `c`, or None. */
  function IndexOf(s: string, c: char): (r: Option<nat>)
    ensures r.Some? ==> r.value < |s|
  {
    if s == "" then None
    else if s[0] == c then Some(0)
    else match IndexOf(s[1..], c)
      case None => None
      case Some(i) => Some(i + 1)
  }

  lemma {:induction false} IndexOfFinds(s: string, c: char)
    ensures var r := IndexOf(s, c);
            if r.Some? then s[r.value] == c && c !in s[..r.value] else c !in s
  {
    if s != "" && s[0] != c {
      IndexOfFinds(s[1..], c);
    }
  }

  lemma {:induction false} IndexOfPrefix(p: string, c: char, s: string)
    requires c !in p
    ensures IndexOf(p + [c] + s, c) == Some(|p|)
  {
    if p != "" {
      assert (p + [c] + s)[1..] == p[1..] + [c] + s;
      IndexOfPrefix(p[1..], c, s);
    }
  }

  function LowerChar(c: char): char
  {
    if 'A' <= c <= 'Z' then (c as int - 'A' as int + 'a' as int) as char else c
  }

  /** `strings.ToLower`. */
  function Lower(s: string): (t: string)
    ensures |t| == |s| && forall i :: 0 <= i < |s| ==> t[i] == LowerChar(s[i])
  {
    seq(|s|, i requires 0 <= i < |s| => LowerChar(s[i]))
  }

  /** `strings.Split` at a one-byte separator: one more piece than there are separators. */
  function Split(s: string, c: char): (parts: seq<string>)
    ensures parts != []
    decreases |s|
  {
    match IndexOf(s, c)
    case None => [s]
    case Some(i) => [s[..i]] + Split(s[i + 1..], c)
  }

  lemma {:induction false} SplitPieces(s: string, c: char)
    ensures forall i :: 0 <= i < |Split(s, c)| ==> c !in Split(s, c)[i]
    decreases |s|
  {
    IndexOfFinds(s, c);
    match IndexOf(s, c) {
      case None =>
      case Some(i) => SplitPieces(s[i + 1..], c);
    }
  }

  lemma SplitFirst(p: string, c: char, s: string)
    requires c !in p
    ensures Split(p, c) == [p]
    ensures Split(p + [c] + s, c) == [p] + Split(s, c)
  {
    var t := p + [c] + s;
    IndexOfPrefix(p, c, s);
    assert t[..|p|] == p && t[|p| + 1..] == s;
    IndexOfFinds(p, c);
  }

  lemma Regroup(a: string, b: string, c: string, d: string, e: string)
    ensures a + b + c + d + e == a + b + (c + d + e)
  {
  }

  /** The first piece and what it was split off from. */
  lemma SplitHead(s: string, c: char) returns (rest: string)
    ensures |Split(s, c)| == 1 ==> s == Split(s, c)[0]
    ensures |Split(s, c)| > 1 ==> s == Split(s, c)[0] + [c] + rest && Split(rest, c) == Split(s, c)[1..]
  {
    IndexOfFinds(s, c);
    match IndexOf(s, c) {
      case None => rest := "";
      case Some(i) => rest := s[i + 1..];
    }
  }

  /** Splitting at every separator is splitting at one of them first. */
  lemma {:induction false} SplitConcat(a: string, c: char, b: string)
    ensures Split(a + [c] + b, c) == Split(a, c) + Split(b, c)
    decreases |a|
  {
    IndexOfFinds(a, c);
    match IndexOf(a, c) {
      case None => SplitFirst(a, c, b);
      case Some(i) =>
        var rest := a[i + 1..];
        assert a == a[..i] + [c] + rest;
        Regroup(a[..i], [c], rest, [c], b);
        SplitFirst(a[..i], c, rest + [c] + b);
        SplitFirst(a[..i], c, rest);
        SplitConcat(rest, c, b);
        ConcatAssociative([a[..i]], Split(rest, c), Split(b, c));
    }
  }

  // ---------- Lines ----------

  lemma ConcatAssociative<T>(a: seq<T>, b: seq<T>, c: seq<T>)
    ensures (a + b) + c == a + (b + c)
  {
  }

  function Unlines(lines: seq<string>): string
  {
    if lines == [] then "" else lines[0] + ['\n'] + Unlines(lines[1..])
  }

  lemma {:induction false} UnlinesConcat(xs: seq<string>, ys: seq<string>)
    ensures Unlines(xs + ys) == Unlines(xs) + Unlines(ys)
  {
    if xs == [] {
      assert xs + ys == ys;
    } else {
      UnlinesConcat(xs[1..], ys);
      assert (xs + ys)[1..] == xs[1..] + ys;
    }
  }

  function DropCr(s: string): string
  {
    if s != "" && s[|s| - 1] == '\r' then s[..|s| - 1] else s
  }

  /** The lines of `bufio.ScanLines`: a final empty line is dropped, a carriage return before the end too. */
  function ScanLines(text: string): seq<string>
    decreases |text|
  {
    match IndexOf(text, '\n')
    case None => if text == "" then [] else [DropCr(text)]
    case Some(i) => [DropCr(text[..i])] + ScanLines(text[i + 1..])
  }

  /** Text that stays one line when written and scanned. */
  predicate OneLine(s: string)
  {
    '\n' !in s && (s == "" || s[|s| - 1] != '\r')
  }

  predicate AllOneLine(lines: seq<string>)
  {
    forall i :: 0 <= i < |lines| ==> OneLine(lines[i])
  }

  lemma ScanFirst(line: string, rest: string)
    requires OneLine(line)
    ensures ScanLines(line + ['\n'] + rest) == [line] + ScanLines(rest)
  {
    var t := line + ['\n'] + rest;
    IndexOfPrefix(line, '\n', rest);
    assert t[..|line|] == line && t[|line| + 1..] == rest;
  }

  lemma {:induction false} ScanUnlines(lines: seq<string>)
    requires AllOneLine(lines)
    ensures ScanLines(Unlines(lines)) == lines
  {
    if lines != [] {
      ScanFirst(lines[0], Unlines(lines[1..]));
      ScanUnlines(lines[1..]);
      assert lines == [lines[0]] + lines[1..];
    }
  }

  /** `strings.Join`: the parts with a separator between them. */
  function Join(parts: seq<string>, sep: string): string
  {
    if parts == [] then ""
    else if |parts| == 1 then parts[0]
    else Join(parts[..|parts| - 1], sep) + sep + parts[|parts| - 1]
  }

  /** Space at the end is dropped up to a position that holds something else. */
  lemma {:induction false} TrimRightKeeps(s: string, i: nat)
    requires i < |s| && !IsSpace(s[i])
    ensures i < |TrimRight(s)| && TrimRight(s)[..i + 1] == s[..i + 1]
  {
    if IsSpace(s[|s| - 1]) {
      TrimRightKeeps(s[..|s| - 1], i);
    }
  }

  lemma {:induction false} SplitJoin(parts: seq<string>, c: char)
    requires parts != [] && forall i :: 0 <= i < |parts| ==> c !in parts[i]
    ensures Split(Join(parts, [c]), c) == parts
  {
    var n := |parts| - 1;
    if n == 0 {
      SplitFirst(parts[0], c, "");
    } else {
      SplitJoin(parts[..n], c);
      SplitConcat(Join(parts[..n], [c]), c, parts[n]);
      SplitFirst(parts[n], c, "");
      assert parts == parts[..n] + [parts[n]];
    }
  }

  /** The joined text starts with the first part and ends with the last. */
  lemma {:induction false} JoinEnds(parts: seq<string>, sep: string)
    requires parts != [] && parts[0] != "" && parts[|parts| - 1] != ""
    ensures var s, last := Join(parts, sep), parts[|parts| - 1];
            s != "" && s[0] == parts[0][0] && s[|s| - 1] == last[|last| - 1]
  {
    if |parts| > 1 {
      JoinStarts(parts[..|parts| - 1], sep);
    }
  }

  lemma {:induction false} JoinStarts(parts: seq<string>, sep: string)
    requires parts != [] && parts[0] != ""
    ensures Join(parts, sep) != "" && Join(parts, sep)[0] == parts[0][0]
  {
    if |parts| > 1 {
      JoinStarts(parts[..|parts| - 1], sep);
    }
  }

  lemma {:induction false} JoinFree(parts: seq<string>, sep: string, d: char)
    requires d !in sep && forall i :: 0 <= i < |parts| ==> d !in parts[i]
    ensures d !in Join(parts, sep)
  {
    if |parts| > 1 {
      JoinFree(parts[..|parts| - 1], sep, d);
    }
  }
}
