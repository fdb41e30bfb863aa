/**
 * Printing commands for a shell: `quotedJoin` of `internal/pcq/plan.go`, against a reader that splits a
 * line into words by the quoting rules of section 2.2 of POSIX.1-2017 Shell Command Language.
 */
module ShellQuote {
  import opened Wrappers

  /** The characters for which the printer quotes an argument. */
  predicate Trigger(c: char)
  {
    c == ' ' || c == '\'' || c == '"' || c == '&' || c == '|' || c == ';' || c == '<' || c == '>'
    || c == '`' || c == '$' || c == '\n'
  }

  /** `strings.ContainsAny`, or empty. */
  predicate NeedsQuotes(a: string)
  {
    a == "" || exists i :: 0 <= i < |a| && Trigger(a[i])
  }

  /** `strings.ReplaceAll(a, "'", "'\\''")`. */
  function Escape(a: string): string
  {
    if a == "" then ""
    else (if a[0] == '\'' then ['\'', '\\', '\'', '\''] else [a[0]]) + Escape(a[1..])
  }

  function Printed(a: string): string
  {
    if NeedsQuotes(a) then ['\''] + (Escape(a) + ['\'']) else a
  }

  function Tail(args: seq<string>): string
  {
    if args == [] then "" else [' '] + (Printed(args[0]) + Tail(args[1..]))
  }

  function Line(args: seq<string>): string
  {
    if args == [] then "" else Printed(args[0]) + Tail(args[1..])
  }

  lemma JoinedNext(before: string, p: string, tail: string)
    ensures before + [' '] + p + tail == before + ([' '] + (p + tail))
  {
  }

  lemma Quoting(line: string, e: string)
    ensures line + ['\''] + e + ['\''] == line + (['\''] + (e + ['\'']))
  {
  }

  method QuotedJoin(args: seq<string>) returns (line: string)
    ensures line == Line(args)
  {
    line := "";
    var i := 0;
    while i < |args|
      invariant i <= |args|
      invariant i == 0 ==> line == ""
      invariant i > 0 ==> line + Tail(args[i..]) == Line(args)
    {
      ghost var before := line;
      assert args[i..][1..] == args[i + 1..];
      if i > 0 {
        line := line + [' '];
      }
      if NeedsQuotes(args[i]) {
        Quoting(line, Escape(args[i]));
        line := line + ['\''];
        line := line + Escape(args[i]);
        line := line + ['\''];
      } else {
        line := line + args[i];
      }
      assert line == (if i > 0 then before + [' '] else before) + Printed(args[i]);
      JoinedNext(before, Printed(args[i]), Tail(args[i + 1..]));
      i := i + 1;
    }
    if args != [] {
      assert line + Tail([]) == line;
    }
  }

  // ---------- The shell's side ----------

  predicate Blank(c: char)
  {
    c == ' ' || c == '\t'
  }

  predicate Operator(c: char)
  {
    c == '&' || c == '|' || c == ';' || c == '<' || c == '>' || c == '(' || c == ')' || c == '\n'
  }

  /** What a backslash can quote inside double quotes. */
  predicate EscapedInDouble(c: char)
  {
    c == '$' || c == '`' || c == '"' || c == '\\'
  }

  /** What the shell may replace by something else: parameters, commands and file names. */
  predicate Expands(c: char)
  {
    c == '$' || c == '`' || c == '*' || c == '?' || c == '['
  }

  datatype Mode = Bare | Single | Double

  datatype Token = Token(word: string, rest: string)

  function Prepend(c: char, t: Option<Token>): Option<Token>
  {
    match t
    case None => None
    case Some(tok) => Some(Token([c] + tok.word, tok.rest))
  }

  /**
   * The rest of the current word and the text behind it; None for an unfinished quotation, an operator, an
   * expansion or a line continuation.
   */
  function Read(mode: Mode, s: string): (r: Option<Token>)
    ensures r.Some? ==> |r.value.rest| <= |s|
    ensures r.Some? && mode == Bare && s != "" && !Blank(s[0]) ==> |r.value.rest| < |s|
    decreases |s|
  {
    if s == "" then (if mode == Bare then Some(Token("", s)) else None)
    else
      var c := s[0];
      match mode
      case Single => if c == '\'' then Read(Bare, s[1..]) else Prepend(c, Read(Single, s[1..]))
      case Double =>
        if c == '"' then Read(Bare, s[1..])
        else if c == '$' || c == '`' then None
        else if c == '\\' && |s| > 1 && EscapedInDouble(s[1]) then Prepend(s[1], Read(Double, s[2..]))
        else if c == '\\' && |s| > 1 && s[1] == '\n' then None
        else Prepend(c, Read(Double, s[1..]))
      case Bare =>
        if Blank(c) then Some(Token("", s))
        else if c == '\'' then Read(Single, s[1..])
        else if c == '"' then Read(Double, s[1..])
        else if c == '\\' then
          if |s| == 1 || s[1] == '\n' then None else Prepend(s[1], Read(Bare, s[2..]))
        else if Operator(c) || Expands(c) then None
        else Prepend(c, Read(Bare, s[1..]))
  }

  /**
   * All words of a line; a word that would start with # is a comment instead, and one that starts with ~
   * is replaced by a directory.
   */
  function Words(s: string): Option<seq<string>>
    decreases |s|
  {
    if s == "" then Some([])
    else if Blank(s[0]) then Words(s[1..])
    else if s[0] == '#' then (if '\n' in s then None else Some([]))
    else if s[0] == '~' then None
    else
      match Read(Bare, s)
      case None => None
      case Some(t) =>
        match Words(t.rest)
        case None => None
        case Some(ws) => Some([t.word] + ws)
  }

  // ---------- Faithful arguments ----------

  /** Characters that are special to the shell and do not make the printer quote. */
  predicate Unlisted(c: char)
  {
    c == '\\' || c == '\t' || c == '(' || c == ')' || c == '*' || c == '?' || c == '['
  }

  predicate HasUnlisted(a: string)
  {
    exists i :: 0 <= i < |a| && Unlisted(a[i])
  }

  /** Text that the shell reads as one word, the text itself. */
  predicate ShellWord(a: string)
  {
    !NeedsQuotes(a) && !HasUnlisted(a) && a[0] != '#' && a[0] != '~'
  }

  predicate Faithful(a: string)
  {
    NeedsQuotes(a) || ShellWord(a)
  }

  predicate AllFaithful(args: seq<string>)
  {
    forall i :: 0 <= i < |args| ==> Faithful(args[i])
  }

  /** Text behind a complete word. */
  predicate Ends(s: string)
  {
    s == "" || s[0] == ' '
  }

  lemma ReadEscapedQuote(t: string)
    ensures Read(Single, ['\'', '\\', '\'', '\''] + t) == Prepend('\'', Read(Single, t))
  {
    var quote := ['\''] + t;
    var escaped := ['\\', '\''] + quote;
    var s := ['\'', '\\', '\'', '\''] + t;
    assert s[1..] == escaped;
    assert escaped[2..] == quote;
    assert quote[1..] == t;
    assert Read(Bare, quote) == Read(Single, t);
    assert Read(Bare, escaped) == Prepend('\'', Read(Bare, quote));
  }

  lemma {:induction false} ReadEscaped(a: string, rest: string)
    requires Ends(rest)
    ensures Read(Single, Escape(a) + ['\''] + rest) == Some(Token(a, rest))
  {
    var s := Escape(a) + ['\''] + rest;
    if a == "" {
      assert s[1..] == rest;
    } else {
      var t := Escape(a[1..]) + ['\''] + rest;
      ReadEscaped(a[1..], rest);
      assert a == [a[0]] + a[1..];
      if a[0] == '\'' {
        assert s == ['\'', '\\', '\'', '\''] + t;
        ReadEscapedQuote(t);
      } else {
        assert s == [a[0]] + t && s[1..] == t;
      }
    }
  }

  lemma {:induction false} ReadPlain(a: string, rest: string)
    requires Ends(rest) && !HasUnlisted(a) && forall i :: 0 <= i < |a| ==> !Trigger(a[i])
    ensures Read(Bare, a + rest) == Some(Token(a, rest))
  {
    if a == "" {
      assert a + rest == rest;
    } else {
      ReadPlain(a[1..], rest);
      assert (a + rest)[1..] == a[1..] + rest;
      assert a == [a[0]] + a[1..];
    }
  }

  lemma ReadQuoted(a: string, rest: string)
    requires Ends(rest)
    ensures Read(Bare, ['\''] + (Escape(a) + ['\'']) + rest) == Some(Token(a, rest))
  {
    ReadEscaped(a, rest);
    assert (['\''] + (Escape(a) + ['\'']) + rest)[1..] == Escape(a) + ['\''] + rest;
  }

  lemma ReadPrinted(a: string, rest: string)
    requires Ends(rest) && Faithful(a)
    ensures Read(Bare, Printed(a) + rest) == Some(Token(a, rest))
  {
    if NeedsQuotes(a) {
      ReadQuoted(a, rest);
    } else {
      ReadPlain(a, rest);
    }
  }

  lemma PrintedStart(a: string)
    requires Faithful(a)
    ensures Printed(a) != "" && !Blank(Printed(a)[0]) && Printed(a)[0] != '#' && Printed(a)[0] != '~'
  {
    if !NeedsQuotes(a) {
      assert !Trigger(a[0]) && !Unlisted(a[0]);
    }
  }

  /** The next word of a line is the argument, if that is faithful. */
  lemma WordsOfPrinted(a: string, rest: string)
    requires Ends(rest) && Faithful(a)
    ensures Words(Printed(a) + rest)
         == (match Words(rest) case None => None case Some(ws) => Some([a] + ws))
  {
    ReadPrinted(a, rest);
    PrintedStart(a);
    assert (Printed(a) + rest)[0] == Printed(a)[0];
  }

  lemma WordsOfTail(args: seq<string>)
    requires args != []
    ensures Words(Tail(args)) == Words(Line(args))
  {
    assert Tail(args)[1..] == Line(args);
  }

  lemma {:induction false} FaithfulRoundTrip(args: seq<string>)
    requires AllFaithful(args)
    ensures Words(Line(args)) == Some(args)
  {
    if args != [] {
      var rest := args[1..];
      FaithfulRoundTrip(rest);
      WordsOfPrinted(args[0], Tail(rest));
      if rest != [] {
        WordsOfTail(rest);
      }
      assert args == [args[0]] + rest;
    }
  }

  // ---------- Unfaithful arguments ----------

  /** A size that the reader never increases, and decreases whenever it meets an unlisted special character. */
  function Size(words: seq<string>): nat
  {
    if words == [] then 0 else 2 * |words[0]| + 1 + Size(words[1..])
  }

  /** Part of an argument that the printer left unquoted. */
  predicate Raw(x: string)
  {
    forall i :: 0 <= i < |x| ==> !Trigger(x[i])
  }

  lemma SizeFirst(w: string, ws: seq<string>)
    ensures Size([w] + ws) == 2 * |w| + 1 + Size(ws)
  {
    assert ([w] + ws)[1..] == ws;
  }

  lemma PrependFirst(c: char, o: Option<Token>, t: Token)
    requires Prepend(c, o) == Some(t)
    ensures t.word != "" && t.word == [c] + t.word[1..] && o == Some(Token(t.word[1..], t.rest))
  {
    assert ([c] + o.value.word)[1..] == o.value.word;
  }

  lemma UnlistedSplit(x: string)
    requires x != ""
    ensures HasUnlisted(x) <==> Unlisted(x[0]) || HasUnlisted(x[1..])
  {
    assert forall i :: 0 < i < |x| ==> x[i] == x[1..][i - 1];
  }

  /** Reading on from within an unquoted argument. */
  lemma {:induction false} ReadShrinks(x: string, rest: seq<string>, t: Token, ws: seq<string>)
    requires Raw(x)
    requires Read(Bare, x + Tail(rest)) == Some(t) && Words(t.rest) == Some(ws)
    ensures 2 * |t.word| + Size(ws) <= 2 * |x| + Size(rest)
    ensures HasUnlisted(x) || !AllFaithful(rest) ==> 2 * |t.word| + Size(ws) < 2 * |x| + Size(rest)
    decreases |x| + |Tail(rest)|, 2
  {
    var s := x + Tail(rest);
    if x == "" {
      assert s == Tail(rest);
      assert t == Token("", s);
      WordsShrink("", rest, ws);
    } else if x[0] == '\t' {
      WordsShrink(x, rest, ws);
    } else if x[0] == '\\' {
      if |x| > 1 {
        assert s[2..] == x[2..] + Tail(rest);
        PrependFirst(s[1], Read(Bare, s[2..]), t);
        ReadShrinks(x[2..], rest, Token(t.word[1..], t.rest), ws);
      } else {
        assert rest != [];
        assert s[2..] == Printed(rest[0]) + Tail(rest[1..]);
        PrependFirst(s[1], Read(Bare, s[2..]), t);
        PrintedShrinks(rest, Token(t.word[1..], t.rest), ws);
      }
    } else {
      assert s[1..] == x[1..] + Tail(rest);
      assert s[0] == x[0] && !Trigger(x[0]);
      PrependFirst(s[0], Read(Bare, s[1..]), t);
      UnlistedSplit(x);
      ReadShrinks(x[1..], rest, Token(t.word[1..], t.rest), ws);
    }
  }

  /** Reading on at the start of an argument that a backslash joined to the one before. */
  lemma {:induction false} PrintedShrinks(rest: seq<string>, t: Token, ws: seq<string>)
    requires rest != []
    requires Read(Bare, Printed(rest[0]) + Tail(rest[1..])) == Some(t) && Words(t.rest) == Some(ws)
    ensures 2 * |t.word| + Size(ws) < Size(rest)
    decreases |Tail(rest)|, 0
  {
    if NeedsQuotes(rest[0]) {
      ReadPrinted(rest[0], Tail(rest[1..]));
      assert "" + Tail(rest[1..]) == Tail(rest[1..]);
      WordsShrink("", rest[1..], ws);
    } else {
      ReadShrinks(rest[0], rest[1..], t, ws);
    }
  }

  /** Splitting on from within or right behind an unquoted argument. */
  lemma {:induction false} WordsShrink(x: string, rest: seq<string>, ws: seq<string>)
    requires Raw(x)
    requires Words(x + Tail(rest)) == Some(ws)
    ensures x == "" ==> Size(ws) <= Size(rest) && (!AllFaithful(rest) ==> Size(ws) < Size(rest))
    ensures x != "" ==> Size(ws) <= 2 * |x| + 1 + Size(rest)
    ensures x != "" && (!Faithful(x) || !AllFaithful(rest)) ==> Size(ws) < 2 * |x| + 1 + Size(rest)
    ensures x != "" && x[0] == '\t' ==> Size(ws) < 2 * |x| + Size(rest)
    decreases |x| + |Tail(rest)|, if x == "" || x[0] == '\t' then 1 else 3
  {
    var s := x + Tail(rest);
    if x == "" {
      assert s == Tail(rest);
      if rest != [] {
        LineShrinks(rest, ws);
      }
    } else if x[0] == '\t' {
      assert s[1..] == x[1..] + Tail(rest);
      WordsShrink(x[1..], rest, ws);
    } else if x[0] != '#' && x[0] != '~' {
      var t := Read(Bare, s).value;
      var ws' := Words(t.rest).value;
      ReadShrinks(x, rest, t, ws');
      SizeFirst(t.word, ws');
    }
  }

  lemma {:induction false} LineShrinks(rest: seq<string>, ws: seq<string>)
    requires rest != []
    requires Words(Tail(rest)) == Some(ws)
    ensures Size(ws) <= Size(rest)
    ensures !AllFaithful(rest) ==> Size(ws) < Size(rest)
    decreases |Tail(rest)|, 0
  {
    WordsOfTail(rest);
    if NeedsQuotes(rest[0]) {
      WordsOfPrinted(rest[0], Tail(rest[1..]));
      var ws' := Words(Tail(rest[1..])).value;
      assert "" + Tail(rest[1..]) == Tail(rest[1..]);
      WordsShrink("", rest[1..], ws');
      SizeFirst(rest[0], ws');
    } else {
      WordsShrink(rest[0], rest[1..], ws);
    }
  }

  /**
   * A printed line splits back into its arguments exactly when every argument is quoted or holds no
   * backslash, tab, parenthesis, star, question mark or bracket and does not start with # or ~.
   */
  lemma QuotedJoinRoundTrip(args: seq<string>)
    ensures Words(Line(args)) == Some(args) <==> AllFaithful(args)
  {
    if AllFaithful(args) {
      FaithfulRoundTrip(args);
    } else if Words(Line(args)) == Some(args) {
      WordsOfTail(args);
      LineShrinks(args, args);
      assert false;
    }
  }
}
