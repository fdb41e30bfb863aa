/**
 * Reading a `sh -c` script of the one form that the planner emits: a simple command with its error output
 * discarded, followed by `|| true`.
 */
module Script {
  import opened Wrappers
  import opened ShellQuote

  /**
   * The words of the command, and whether its failure is ignored. Unclear: more than one command runs, or
   * what runs depends on the surroundings.
   */
  datatype Script = Runs(words: seq<string>, ignoring: bool) | Unclear

  /** The redirection that discards error output. */
  const QUIET := "2>/dev/null"

  function Prepended(w: string, r: Script): Script
  {
    match r
    case Unclear => Unclear
    case Runs(ws, ignoring) => Runs([w] + ws, ignoring)
  }

  function ReadScript(s: string): Script
    decreases |s|
  {
    if s == "" then Runs([], false)
    else if Blank(s[0]) then ReadScript(s[1..])
    else if s[0] == '#' then (if '\n' in s then Unclear else Runs([], false))
    else if s[0] == '~' then Unclear
    else if QUIET <= s && (|s| == |QUIET| || Blank(s[|QUIET|])) then ReadScript(s[|QUIET|..])
    else if "||" <= s then (if Words(s[2..]) == Some(["true"]) then Runs([], true) else Unclear)
    else
      match Read(Bare, s)
      case None => Unclear
      case Some(t) => Prepended(t.word, ReadScript(t.rest))
  }

  // ---------- The delete script ----------

  const OR_TRUE := " || true"

  /** What follows the interface name. */
  function Ending(what: string): string
  {
    [' '] + (what + ([' '] + (QUIET + OR_TRUE)))
  }

  /** The text `tc qdisc del dev ` in front of `x`. */
  function Command(x: string): string
  {
    "tc" + ([' '] + ("qdisc" + ([' '] + ("del" + ([' '] + ("dev" + ([' '] + x)))))))
  }

  function DeleteScript(name: string, what: string): string
  {
    Command(name + Ending(what))
  }

  lemma DeleteScriptText(name: string, what: string)
    ensures DeleteScript(name, what) == "tc qdisc del dev " + name + " " + what + " 2>/dev/null || true"
  {
    assert Command("") == "tc qdisc del dev ";
    assert Command(name + Ending(what)) == Command("") + (name + Ending(what));
    assert [' '] + (QUIET + OR_TRUE) == " 2>/dev/null || true";
  }

  lemma NextWord(a: string, rest: string)
    requires ShellWord(a)
    ensures ReadScript(a + ([' '] + rest)) == Prepended(a, ReadScript(rest))
  {
    var s := a + ([' '] + rest);
    ReadPlain(a, [' '] + rest);
    assert s[0] == a[0] && !Trigger(a[0]) && !Unlisted(a[0]);
    assert |a| > 1 ==> s[1] == a[1] && !Trigger(a[1]);
    assert QUIET[1] == '>' && "||"[0] == '|';
    assert ([' '] + rest)[1..] == rest;
  }

  lemma SkipQuiet(rest: string)
    requires rest == "" || Blank(rest[0])
    ensures ReadScript(QUIET + rest) == ReadScript(rest)
  {
    var s := QUIET + rest;
    assert s[0] == '2' && s[|QUIET|..] == rest;
    assert rest != "" ==> s[|QUIET|] == rest[0];
  }

  lemma ReadTrue()
    ensures Words(" true") == Some(["true"])
  {
    assert ShellWord("true") && Tail([]) == "";
    FaithfulRoundTrip(["true"]);
    assert Line(["true"]) == "true" && " true"[1..] == "true";
  }

  lemma ReadOrTrue()
    ensures ReadScript(OR_TRUE) == Runs([], true)
  {
    var s := "|| true";
    ReadTrue();
    assert OR_TRUE[1..] == s && s[2..] == " true";
    assert QUIET[0] == '2' && s[0] == '|';
    assert ReadScript(s) == Runs([], true);
  }

  lemma ReadEnding(what: string)
    requires ShellWord(what)
    ensures ReadScript(Ending(what)) == Runs([what], true)
  {
    var quiet := QUIET + OR_TRUE;
    assert Ending(what)[1..] == what + ([' '] + quiet);
    NextWord(what, quiet);
    SkipQuiet(OR_TRUE);
    ReadOrTrue();
  }

  lemma CommandWords()
    ensures ShellWord("tc") && ShellWord("qdisc") && ShellWord("del") && ShellWord("dev")
    ensures ShellWord("ingress") && ShellWord("root")
  {
  }

  const COMMAND: seq<string> := ["tc", "qdisc", "del", "dev"]

  function OnDevice(r: Script): Script
  {
    match r
    case Unclear => Unclear
    case Runs(ws, ignoring) => Runs(COMMAND + ws, ignoring)
  }

  lemma PrependFour(a: string, b: string, c: string, d: string, r: Script)
    ensures Prepended(a, Prepended(b, Prepended(c, Prepended(d, r))))
         == match r case Unclear => Unclear case Runs(ws, ignoring) => Runs([a, b, c, d] + ws, ignoring)
  {
    match r {
      case Unclear =>
      case Runs(ws, _) => assert [a] + ([b] + ([c] + ([d] + ws))) == [a, b, c, d] + ws;
    }
  }

  /** The words before the interface name are read as they stand. */
  lemma ReadCommand(x: string)
    ensures ReadScript(Command(x)) == OnDevice(ReadScript(x))
  {
    CommandWords();
    NextWord("dev", x);
    NextWord("del", "dev" + ([' '] + x));
    NextWord("qdisc", "del" + ([' '] + ("dev" + ([' '] + x))));
    NextWord("tc", "qdisc" + ([' '] + ("del" + ([' '] + ("dev" + ([' '] + x))))));
    PrependFour("tc", "qdisc", "del", "dev", ReadScript(x));
  }

  /** A name that is one shell word reaches the command as itself. */
  lemma DeleteScriptReads(name: string, what: string)
    requires ShellWord(name) && ShellWord(what)
    ensures ReadScript(DeleteScript(name, what)) == Runs(COMMAND + [name, what], true)
  {
    var rest := what + ([' '] + (QUIET + OR_TRUE));
    ReadCommand(name + Ending(what));
    NextWord(name, rest);
    ReadEnding(what);
    assert Ending(what)[1..] == rest;
    assert [name] + [what] == [name, what];
  }

  // ---------- No other name does ----------

  /** Nothing in `s` closes a quotation. */
  lemma {:induction false} NeverCloses(mode: Mode, s: string)
    requires (mode == Single && '\'' !in s) || (mode == Double && '"' !in s)
    ensures Read(mode, s) == None
    decreases |s|
  {
    if s != "" {
      if mode == Double && s[0] == '\\' && |s| > 1 && EscapedInDouble(s[1]) {
        NeverCloses(mode, s[2..]);
      } else {
        NeverCloses(mode, s[1..]);
      }
    }
  }

  predicate Ordinary(x: string)
  {
    forall i :: 0 <= i < |x| ==> !Trigger(x[i]) && !Unlisted(x[i])
  }

  /** A word that a backslash at the end of `x` led on into the ending, whose word ends in `last`. */
  predicate RunsOver(x: string, last: char, w: string)
  {
    x != "" && x[|x| - 1] == '\\' && w != "" && w[|w| - 1] == last
  }

  /** A word read from `x` is shorter than `x` unless it is `x`, or runs over. */
  predicate Bounded(mode: Mode, x: string, last: char, w: string)
  {
    (mode == Bare && Ordinary(x) && w == x) || |w| < |x| || RunsOver(x, last, w)
  }

  /** An ending that closes no quotation and whose first word, taken after a backslash, ends in `last`. */
  ghost predicate Follows(e: string, last: char)
  {
    Ends(e) && e != "" && '\'' !in e && '"' !in e
    && forall t :: Read(Bare, ['\\'] + e) == Some(t) ==> t.word != "" && t.word[|t.word| - 1] == last
  }

  lemma Skip(x: string, k: nat, last: char, from: Mode, to: Mode, w: string)
    requires 1 <= k <= |x| && Bounded(from, x[k..], last, w)
    ensures Bounded(to, x, last, w)
  {
    assert x[k..] != "" ==> x[k..][|x[k..]| - 1] == x[|x| - 1];
  }

  lemma LastOfMore(c: char, w: string)
    requires w != ""
    ensures ([c] + w)[|w|] == w[|w| - 1]
  {
  }

  lemma SkipKeeping(x: string, k: nat, last: char, from: Mode, to: Mode, c: char, w: string)
    requires 1 <= k <= |x| && (k == 2 || from != Bare) && Bounded(from, x[k..], last, w)
    ensures Bounded(to, x, last, [c] + w)
  {
    assert x[k..] != "" ==> x[k..][|x[k..]| - 1] == x[|x| - 1];
    if w != "" {
      LastOfMore(c, w);
    }
  }

  lemma KeepFirst(x: string, last: char, w: string)
    requires x != "" && !Trigger(x[0]) && !Unlisted(x[0]) && Bounded(Bare, x[1..], last, w)
    ensures Bounded(Bare, x, last, [x[0]] + w)
  {
    assert x[1..] != "" ==> x[1..][|x[1..]| - 1] == x[|x| - 1];
    assert x == [x[0]] + x[1..];
    if w != "" {
      LastOfMore(x[0], w);
    }
  }

  lemma {:induction false} WordIsBounded(mode: Mode, x: string, e: string, last: char, t: Token)
    requires Follows(e, last) && Read(mode, x + e) == Some(t)
    ensures Bounded(mode, x, last, t.word)
    decreases |x|, 1
  {
    if x == "" {
      assert x + e == e;
      if mode != Bare {
        NeverCloses(mode, e);
      }
    } else if mode == Bare {
      BareIsBounded(x, e, last, t);
    } else {
      QuotedIsBounded(mode, x, e, last, t);
    }
  }

  lemma {:induction false} QuotedIsBounded(mode: Mode, x: string, e: string, last: char, t: Token)
    requires Follows(e, last) && mode != Bare && x != "" && Read(mode, x + e) == Some(t)
    ensures Bounded(mode, x, last, t.word)
    decreases |x|, 0
  {
    var s := x + e;
    assert s[0] == x[0] && s[1..] == x[1..] + e;
    assert |x| == 1 ==> s[1] == e[0];
    if s[0] == (if mode == Single then '\'' else '"') {
      WordIsBounded(Bare, x[1..], e, last, t);
      Skip(x, 1, last, Bare, mode, t.word);
    } else if mode == Double && s[0] == '\\' && |s| > 1 && EscapedInDouble(s[1]) {
      assert |x| > 1;
      assert s[2..] == x[2..] + e;
      PrependFirst(s[1], Read(mode, s[2..]), t);
      WordIsBounded(mode, x[2..], e, last, Token(t.word[1..], t.rest));
      SkipKeeping(x, 2, last, mode, mode, s[1], t.word[1..]);
    } else {
      PrependFirst(s[0], Read(mode, s[1..]), t);
      WordIsBounded(mode, x[1..], e, last, Token(t.word[1..], t.rest));
      SkipKeeping(x, 1, last, mode, mode, s[0], t.word[1..]);
    }
  }

  lemma {:induction false} BareIsBounded(x: string, e: string, last: char, t: Token)
    requires Follows(e, last) && x != "" && Read(Bare, x + e) == Some(t)
    ensures Bounded(Bare, x, last, t.word)
    decreases |x|, 0
  {
    var s := x + e;
    assert s[0] == x[0] && s[1..] == x[1..] + e;
    if Blank(x[0]) {
      assert t.word == "";
    } else if x[0] == '\'' || x[0] == '"' {
      var mode := if x[0] == '\'' then Single else Double;
      WordIsBounded(mode, x[1..], e, last, t);
      Skip(x, 1, last, mode, Bare, t.word);
    } else if |x| == 1 && x[0] == '\\' {
      assert s == ['\\'] + e;
    } else if x[0] == '\\' {
      assert s[1] == x[1] && s[2..] == x[2..] + e;
      PrependFirst(s[1], Read(Bare, s[2..]), t);
      WordIsBounded(Bare, x[2..], e, last, Token(t.word[1..], t.rest));
      SkipKeeping(x, 2, last, Bare, Bare, s[1], t.word[1..]);
    } else {
      PrependFirst(s[0], Read(Bare, s[1..]), t);
      WordIsBounded(Bare, x[1..], e, last, Token(t.word[1..], t.rest));
      KeepFirst(x, last, t.word[1..]);
    }
  }

  /** A backslash in front of the ending takes the blank into the word. */
  lemma ReadAfterBackslash(what: string, rest: string)
    requires ShellWord(what) && Ends(rest)
    ensures Read(Bare, ['\\'] + ([' '] + (what + rest))) == Some(Token([' '] + what, rest))
  {
    ReadPlain(what, rest);
    assert (['\\'] + ([' '] + (what + rest)))[2..] == what + rest;
  }

  lemma NoQuotes(what: string)
    requires ShellWord(what)
    ensures '\'' !in Ending(what) && '"' !in Ending(what)
  {
    assert '\'' !in QUIET && '"' !in QUIET;
    assert '\'' !in OR_TRUE && '"' !in OR_TRUE;
    assert forall i :: 0 <= i < |what| ==> !Trigger(what[i]);
  }

  lemma EndingFollows(what: string)
    requires ShellWord(what)
    ensures Follows(Ending(what), what[|what| - 1])
  {
    ReadAfterBackslash(what, [' '] + (QUIET + OR_TRUE));
    NoQuotes(what);
  }

  /** The first word `w` of a script that goes on with `x` and an ending whose own first word is `what`. */
  predicate FirstBounded(x: string, what: string, last: char, w: string)
  {
    w == what || |w| < |x| || RunsOver(x, last, w) || (w == x && ShellWord(x))
  }

  lemma SkipFirst(x: string, k: nat, what: string, last: char, w: string)
    requires 1 <= k <= |x| && FirstBounded(x[k..], what, last, w)
    ensures FirstBounded(x, what, last, w)
  {
    assert x[k..] != "" ==> x[k..][|x[k..]| - 1] == x[|x| - 1];
  }

  lemma NoBlankInQuiet()
    ensures forall i :: 0 <= i < |QUIET| ==> QUIET[i] != ' '
  {
  }

  lemma QuietWithin(x: string, e: string)
    requires QUIET <= x + e && e != "" && e[0] == ' '
    ensures |x| >= |QUIET| && (x + e)[|QUIET|..] == x[|QUIET|..] + e
  {
    NoBlankInQuiet();
    assert (x + e)[|x|] == ' ';
  }

  lemma ReadFirst(x: string, e: string, last: char, t: Token)
    requires Follows(e, last) && x != "" && x[0] != '#' && x[0] != '~' && Read(Bare, x + e) == Some(t)
    ensures |t.word| < |x| || RunsOver(x, last, t.word) || (t.word == x && ShellWord(x))
  {
    WordIsBounded(Bare, x, e, last, t);
  }

  lemma {:induction false} FirstWord(x: string, e: string, what: string, last: char, r: Script)
    requires Follows(e, last) && ReadScript(e) == Runs([what], true)
    requires r == ReadScript(x + e) && r.Runs? && r.words != []
    ensures FirstBounded(x, what, last, r.words[0])
    decreases |x|
  {
    var s := x + e;
    if x == "" {
      assert s == e;
    } else if Blank(x[0]) {
      assert s[1..] == x[1..] + e;
      FirstWord(x[1..], e, what, last, r);
      SkipFirst(x, 1, what, last, r.words[0]);
    } else if QUIET <= s && (|s| == |QUIET| || Blank(s[|QUIET|])) {
      QuietWithin(x, e);
      assert s[0] == QUIET[0] == '2';
      FirstWord(x[|QUIET|..], e, what, last, r);
      SkipFirst(x, |QUIET|, what, last, r.words[0]);
    } else {
      assert s[0] == x[0];
      var t := Read(Bare, s).value;
      ReadFirst(x, e, last, t);
    }
  }

  /** Whatever the script reads as, its command names the device only if the name is one shell word. */
  lemma OnlyShellWordsReach(name: string, what: string)
    requires what == "ingress" || what == "root"
    ensures var r := ReadScript(DeleteScript(name, what));
            r.Runs? ==> |r.words| >= 4 && r.words[..4] == COMMAND
                        && (|r.words| > 4 && r.words[4] == name ==> ShellWord(name))
  {
    var e := Ending(what);
    var inner := ReadScript(name + e);
    ReadCommand(name + e);
    CommandWords();
    if inner.Runs? && inner.words != [] {
      EndingFollows(what);
      ReadEnding(what);
      FirstWord(name, e, what, what[|what| - 1], inner);
      assert (COMMAND + inner.words)[4] == inner.words[0];
      assert what[|what| - 1] != '\\';
    }
  }

  /** A name that starts with # comments out the rest of the script, the part that ignores failure included. */
  lemma HashCommentsOut(name: string, what: string)
    requires name != "" && name[0] == '#' && '\n' !in name && ShellWord(what)
    ensures ReadScript(DeleteScript(name, what)) == Runs(COMMAND, false)
  {
    var s := name + Ending(what);
    assert '\n' !in QUIET && '\n' !in OR_TRUE;
    assert forall i :: 0 <= i < |what| ==> !Trigger(what[i]);
    assert s[0] == '#';
    ReadCommand(s);
    assert COMMAND + [] == COMMAND;
  }

  /** Without a name the next word takes its place. */
  lemma NoName(what: string)
    requires ShellWord(what)
    ensures ReadScript(DeleteScript("", what)) == Runs(COMMAND + [what], true)
  {
    assert "" + Ending(what) == Ending(what);
    ReadCommand(Ending(what));
    ReadEnding(what);
  }
}
