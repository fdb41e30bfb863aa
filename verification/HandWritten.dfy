/**
 * What the importer makes of files written by hand: any spacing and letter case, both comment marks,
 * foreign sections, repeated settings, and lines that mean nothing.
 */
module HandWritten {
  import opened Wrappers
  import opened WgQuick
  import Numbers
  import Text

  // ---------- Lines ----------

  lemma BlankLine(s: string)
    requires Text.Space(s)
    ensures ReadLine(s) == Blank
  {
    assert s + "" + "" == s;
    Text.TrimPadded(s, "", "");
  }

  /** A text with neither end blank, in white space. */
  lemma Core(left: string, core: string, right: string)
    requires Text.Space(left) && Text.Space(right) && core != "" && Text.Trimmed(core)
    ensures Text.Trim(left + core + right) == core
  {
    Text.TrimPadded(left, core, right);
  }

  /** Neither a comment nor a section starts like this. */
  predicate Starts(key: string)
  {
    key != "" && Text.Trimmed(key) && key[0] != '#' && key[0] != ';' && key[0] != '[' && '=' !in key
  }

  lemma PairText(key: string, a: string, tail: string)
    requires Starts(key) && Text.Space(a)
    ensures ParseKV(key + a + ['='] + tail) == Some(KV(Text.Lower(key), Text.Trim(tail)))
  {
    var line := key + a + ['='] + tail;
    assert '=' !in key + a;
    Text.IndexOfPrefix(key + a, '=', tail);
    assert line[..|key + a|] == key + a && line[|key + a| + 1..] == tail;
    Text.TrimPadded("", key, a);
    assert "" + key + a == key + a;
  }

  lemma PairCore(key: string, a: string, tail: string)
    requires Starts(key) && Text.Space(a) && (tail == "" || !Text.IsSpace(tail[|tail| - 1]))
    ensures var core := key + a + ['='] + tail;
            Text.Trimmed(core) && core != "" && ReadLine(core) == Setting(KV(Text.Lower(key), Text.Trim(tail)))
  {
    var core := key + a + ['='] + tail;
    assert core[0] == key[0];
    assert core[|core| - 1] == if tail == "" then '=' else tail[|tail| - 1];
    Text.TrimOfTrimmed(core);
    PairText(key, a, tail);
  }

  lemma SameLine(left: string, core: string, right: string)
    requires Text.Space(left) && Text.Space(right) && core != "" && Text.Trimmed(core)
    ensures ReadLine(left + core + right) == ReadLine(core)
  {
    Core(left, core, right);
    Text.TrimOfTrimmed(core);
  }

  /** `key = value` in any spacing and letter case. */
  lemma SettingLine(left: string, key: string, a: string, b: string, value: string, right: string)
    requires Text.Space(left) && Starts(key) && Text.Space(a) && Text.Space(b) && Text.Space(right)
    requires value != "" && Text.Trimmed(value)
    ensures ReadLine(left + (key + a + ['='] + (b + value)) + right) == Setting(KV(Text.Lower(key), value))
  {
    PairCore(key, a, b + value);
    SameLine(left, key + a + ['='] + (b + value), right);
    Text.TrimPadded(b, value, "");
    assert b + value + "" == b + value;
  }

  /** `[name]` in any spacing and letter case. */
  lemma SectionLine(left: string, a: string, name: string, b: string, right: string)
    requires Text.Space(left) && Text.Space(a) && Text.Trimmed(name) && Text.Space(b) && Text.Space(right)
    ensures ReadLine(left + (['['] + (a + name + b) + [']']) + right) == Header(Text.Lower(name))
  {
    var core := ['['] + (a + name + b) + [']'];
    assert core[0] == '[' && core[|core| - 1] == ']' && core[1..|core| - 1] == a + name + b;
    Text.TrimOfTrimmed(core);
    Text.TrimPadded(a, name, b);
    SameLine(left, core, right);
  }

  lemma UserText(a: string, word: string, b: string, name: string)
    requires Text.Space(a) && Text.Lower(word) == "user:" && Text.Space(b) && name != "" && Text.Trimmed(name)
    ensures var inner := word + (b + name);
            Text.Trim(a + inner) == inner && Text.Trimmed(inner) && inner[0] != ';'
            && "user:" <= Text.Lower(inner) && Text.Trim(inner[5..]) == name
  {
    var inner := word + (b + name);
    var low := Text.Lower(inner);
    assert |word| == 5 && low[..5] == Text.Lower(word);
    assert Text.LowerChar(word[0]) == 'u';
    assert inner[|inner| - 1] == name[|name| - 1] && inner[0] == word[0];
    Text.TrimPadded(a, inner, "");
    assert a + inner + "" == a + inner;
    assert inner[5..] == b + name;
    Text.TrimPadded(b, name, "");
    assert b + name + "" == b + name;
  }

  /** Stripping the mark and the space behind it. */
  lemma Stripped(mark: char, x: string, inner: string)
    requires (mark == '#' || mark == ';') && Text.Trimmed([mark] + x)
    requires Text.Trim(x) == inner != "" && Text.Trimmed(inner) && inner[0] != ';'
    ensures Text.Trim(TrimPrefix(Text.Trim(TrimPrefix([mark] + x, '#')), ';')) == inner
  {
    Text.TrimOfTrimmed(inner);
    Text.TrimOfTrimmed([mark] + x);
    assert ([mark] + x)[1..] == x;
  }

  lemma MarkedUser(mark: char, x: string, inner: string)
    requires mark == '#' || mark == ';'
    requires Text.Trim(x) == inner && Text.Trimmed([mark] + x) && Text.Trimmed(inner)
    requires "user:" <= Text.Lower(inner) && Text.Trim(inner[5..]) != "" && inner[0] != ';'
    ensures ParseUserComment([mark] + x) == Some(Text.Trim(inner[5..]))
  {
    Stripped(mark, x, inner);
  }

  lemma MarkedIsTrimmed(mark: char, a: string, inner: string)
    requires (mark == '#' || mark == ';') && inner != "" && Text.Trimmed(inner)
    ensures Text.Trimmed([mark] + (a + inner))
  {
    var core := [mark] + (a + inner);
    assert core[|core| - 1] == inner[|inner| - 1];
  }

  /** `# User: name` with either mark, in any spacing and letter case, names the next peer. */
  lemma UserLine(left: string, mark: char, a: string, word: string, b: string, name: string, right: string)
    requires Text.Space(left) && (mark == '#' || mark == ';') && Text.Space(right)
    requires Text.Space(a) && Text.Lower(word) == "user:" && Text.Space(b) && name != "" && Text.Trimmed(name)
    ensures ReadLine(left + ([mark] + (a + (word + (b + name)))) + right) == Comment(Some(name))
  {
    var inner := word + (b + name);
    var core := [mark] + (a + inner);
    UserText(a, word, b, name);
    MarkedIsTrimmed(mark, a, inner);
    MarkedUser(mark, a + inner, inner);
    Text.TrimOfTrimmed(core);
    SameLine(left, core, right);
  }

  /** A line that starts with a mark is a comment; without a colon it names nobody. */
  lemma CommentLine(left: string, core: string, right: string)
    requires Text.Space(left) && Text.Space(right) && core != "" && Text.Trimmed(core)
    requires core[0] == '#' || core[0] == ';'
    ensures ReadLine(left + core + right).Comment?
    ensures ':' !in core ==> ReadLine(left + core + right) == Comment(None)
  {
    SameLine(left, core, right);
    Text.TrimOfTrimmed(core);
    if ':' !in core {
      var first := Text.Trim(TrimPrefix(core, '#'));
      var ln := Text.Trim(TrimPrefix(first, ';'));
      Text.TrimIsTrimmed(TrimPrefix(core, '#'));
      Text.TrimIsTrimmed(TrimPrefix(first, ';'));
      assert ':' !in first && ':' !in ln;
      assert ':' !in Text.Lower(ln) && "user:"[4] == ':';
    }
  }

  /** A line without an equals sign that is no section and no comment means nothing. */
  lemma JunkLine(left: string, core: string, right: string)
    requires Text.Space(left) && Text.Space(right) && Starts(core)
    ensures ReadLine(left + core + right) == Junk
  {
    SameLine(left, core, right);
    Text.TrimOfTrimmed(core);
    Text.IndexOfFinds(core, '=');
  }

  // ---------- Files ----------

  predicate Silent(l: Line)
  {
    l == Blank || l == Junk || l == Comment(None)
  }

  lemma StepsLast(st: State, lines: seq<string>, line: string)
    ensures Steps(st, lines + [line]) == Step(Steps(st, lines), ReadLine(line))
  {
    assert (lines + [line])[..|lines|] == lines;
  }

  lemma LastApart(a: seq<string>, b: seq<string>)
    requires b != []
    ensures var n := |b| - 1;
            a + b == a + b[..n] + [b[n]] && b == b[..n] + [b[n]]
  {
  }

  lemma {:induction false} StepsConcat(st: State, a: seq<string>, b: seq<string>)
    ensures Steps(st, a + b) == Steps(Steps(st, a), b)
    decreases |b|
  {
    if b == [] {
      assert a + b == a;
    } else {
      var front, line := b[..|b| - 1], b[|b| - 1];
      LastApart(a, b);
      StepsConcat(st, a, front);
      StepsLast(st, a + front, line);
      StepsLast(Steps(st, a), front, line);
    }
  }

  /** Blank lines, comments that name nobody and junk can stand anywhere. */
  lemma NoiseIsIgnored(a: seq<string>, line: string, b: seq<string>)
    requires Silent(ReadLine(line))
    ensures Finish(Steps(START, a + [line] + b)) == Finish(Steps(START, a + b))
  {
    StepsConcat(START, a + [line], b);
    StepsLast(START, a, line);
    StepsConcat(START, a, b);
  }

  /** Lines that stay within a section. */
  predicate Body(lines: seq<string>)
  {
    forall i :: 0 <= i < |lines| ==> Silent(ReadLine(lines[i])) || ReadLine(lines[i]).Setting?
  }

  lemma {:induction false} IgnoredBody(st: State, lines: seq<string>)
    requires st.section == Ignored && Body(lines)
    ensures Steps(st, lines) == st
  {
    if lines != [] {
      IgnoredBody(st, lines[..|lines| - 1]);
    }
  }

  /**
   * A section of another name completes the peer before it and is dropped with all its settings: when a
   * section of its own follows, or the end of the file, it might as well not be there.
   */
  lemma ForeignSectionIsDropped(a: seq<string>, header: string, body: seq<string>, next: seq<string>)
    requires ReadLine(header).Header? && ReadLine(header).name != "peer" && ReadLine(header).name != "interface"
    requires Body(body) && (next == [] || ReadLine(next[0]).Header?)
    ensures Finish(Steps(START, a + ([header] + body) + next)) == Finish(Steps(START, a + next))
  {
    var st := Steps(START, a);
    var t := Flush(st).(section := Ignored);
    StepsConcat(START, a + ([header] + body), next);
    StepsConcat(START, a, [header] + body);
    StepsConcat(st, [header], body);
    StepsLast(st, [], header);
    assert [] + [header] == [header];
    IgnoredBody(t, body);
    StepsConcat(START, a, next);
    if next != [] {
      assert next == [next[0]] + next[1..];
      StepsConcat(st, [next[0]], next[1..]);
      StepsConcat(t, [next[0]], next[1..]);
      StepsLast(st, [], next[0]);
      StepsLast(t, [], next[0]);
      assert [] + [next[0]] == [next[0]];
    }
  }

  // ---------- Settings ----------

  /** In a peer section the last of equal settings counts. */
  lemma PeerOverwrites(p: Peer, k: KV, l: KV)
    requires k.key == l.key
    ensures ApplyPeerKV(ApplyPeerKV(p, k), l) == ApplyPeerKV(p, l)
  {
    assert p.otherKV[k.key := k.value][l.key := l.value] == p.otherKV[l.key := l.value];
  }

  /** The order of different settings does not matter. */
  lemma PeerCommutes(p: Peer, k: KV, l: KV)
    requires k.key != l.key
    ensures ApplyPeerKV(ApplyPeerKV(p, k), l) == ApplyPeerKV(ApplyPeerKV(p, l), k)
  {
    assert p.otherKV[k.key := k.value][l.key := l.value] == p.otherKV[l.key := l.value][k.key := k.value];
  }

  predicate IsHook(key: string)
  {
    key == "preup" || key == "postup" || key == "predown" || key == "postdown"
  }

  predicate IsNumber(key: string)
  {
    key == "listenport" || key == "mtu"
  }

  /** So it is in the interface section, but for hooks, which add up, and numbers, which may be refused. */
  lemma InterfaceOverwrites(i: Interface, k: KV, l: KV)
    requires k.key == l.key && !IsHook(l.key) && !IsNumber(l.key)
    ensures ApplyInterfaceKV(ApplyInterfaceKV(i, k), l) == ApplyInterfaceKV(i, l)
  {
    assert i.otherKV[k.key := k.value][l.key := l.value] == i.otherKV[l.key := l.value];
  }

  /** A number is taken when it is one and in range, and else leaves what was there. */
  lemma InterfaceNumbers(i: Interface, n: int, text: string)
    requires Numbers.Atoi(Text.Trim(text)) == None || Numbers.Atoi(Text.Trim(text)) == Some(n)
    ensures var taken := Numbers.Atoi(Text.Trim(text)).Some? && n > 0;
            && ApplyInterfaceKV(i, KV("listenport", text))
               == (if taken && n < 65536 then i.(listenPort := n) else i)
            && ApplyInterfaceKV(i, KV("mtu", text)) == if taken then i.(mtu := n) else i
  {
  }
}
