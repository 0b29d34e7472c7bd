/** Printing a command so that parsing gives it back, with parentheses only where the grammar needs them. */
module ShellPrinter {
  import opened ShellParser

  type Tree = Cmd<string>

  /** The command with each span replaced by its text. */
  function Strip(s: string, cmd: Cmd<Span>): Tree {
    match cmd
    case Exec(argv) => Exec(Texts(s, argv))
    case Redir(c, file, dir) => Redir(Strip(s, c), Text(s, file), dir)
    case Pipeline(l, r) => Pipeline(Strip(s, l), Strip(s, r))
    case List(l, r) => List(Strip(s, l), Strip(s, r))
    case Back(c) => Back(Strip(s, c))
  }

  function Texts(s: string, argv: seq<Span>): seq<string> {
    seq(|argv|, k requires 0 <= k < |argv| => Text(s, argv[k]))
  }

  function Text(s: string, w: Span): string {
    if w.q <= w.eq <= |s| then s[w.q..w.eq] else ""
  }

  ghost predicate GoodWord(w: string) {
    |w| > 0 && forall k :: 0 <= k < |w| ==> WordChar(w[k])
  }

  /** Words are words of the shell, and no EXEC has more than it takes. */
  ghost predicate Printable(t: Tree) {
    match t
    case Exec(argv) => |argv| < MAXARGS && forall k :: 0 <= k < |argv| ==> GoodWord(argv[k])
    case Redir(c, file, _) => Printable(c) && GoodWord(file)
    case Pipeline(l, r) => Printable(l) && Printable(r)
    case List(l, r) => Printable(l) && Printable(r)
    case Back(c) => Printable(c)
  }

  /** Grammar level a command belongs to: 0 exec, 1 pipe, 2 background, 3 line. */
  function Own(t: Tree): nat {
    match t
    case Exec(_) => 0
    case Redir(_, _, _) => 0
    case Pipeline(_, _) => 1
    case Back(_) => 2
    case List(_, _) => 3
  }

  function PrintWords(ws: seq<string>): string {
    if ws == [] then "" else if |ws| == 1 then ws[0] else ws[0] + " " + PrintWords(ws[1..])
  }

  function PrintDir(dir: Direction): string {
    if dir.In? then "<" else ">"
  }

  /** `t` where the grammar expects something of level `level`. */
  function Print(level: nat, t: Tree): string
    requires level <= 3
    decreases t, (level - Own(t)) % 4
  {
    if level == Own(t) then
      match t
      case Exec(argv) => PrintWords(argv)
      case Redir(c, file, dir) => Print(0, c) + PrintDir(dir) + file
      case Pipeline(l, r) => Print(0, l) + "|" + Print(1, r)
      case Back(c) => Print(2, c) + "&"
      case List(l, r) => Print(2, l) + ";" + Print(3, r)
    else if level == 0 then "(" + Print(3, t) + ")"
    else Print(level - 1, t)
  }

  // ---- Reading one piece of text ----

  /** The rest of the buffer from `i` on is `x`. */
  ghost predicate At(s: string, i: nat, x: string) {
    i <= |s| && s[i..] == x
  }

  /** What may follow: nothing, or one of the characters in `cs`. */
  ghost predicate Before(rest: string, cs: string) {
    rest == "" || rest[0] in cs
  }

  lemma AtConcat(s: string, i: nat, a: string, b: string)
    requires At(s, i, a + b)
    ensures i + |a| <= |s| && s[i..i + |a|] == a && At(s, i + |a|, b)
    ensures forall k :: 0 <= k < |a| ==> s[i + k] == a[k]
    ensures b != "" ==> i + |a| < |s| && s[i + |a|] == b[0]
    ensures b == "" ==> i + |a| == |s|
  {
    var x := s[i..];
    assert forall k :: 0 <= k < |x| ==> x[k] == s[i + k];
    assert x[..|a|] == a && x[|a|..] == b;
  }

  lemma SkipNothing(s: string, i: nat)
    requires i <= |s| && (i < |s| ==> !White(s[i]))
    ensures SkipWhite(s, i) == i
  {
  }

  /** A word ends where a character follows that is not part of words. */
  lemma {:induction false} SkipWordExact(s: string, i: nat, j: nat)
    requires i <= j <= |s| && (forall k :: i <= k < j ==> WordChar(s[k])) && (j < |s| ==> !WordChar(s[j]))
    ensures SkipWord(s, i) == j
    decreases j - i
  {
    if i < j {
      SkipWordExact(s, i + 1, j);
    }
  }

  lemma SymbolToken(s: string, i: nat, c: char, x: string)
    requires At(s, i, [c] + x) && IsSymbol(c) && (c == '>' ==> x != "" && x[0] != '>') && (x != "" ==> !White(x[0]))
    ensures GetToken(s, i) == Lexeme(Symbol(c), i, i + 1, i + 1) && At(s, i + 1, x)
    ensures forall toks :: Peek(s, i, toks) <==> c in toks
  {
    AtConcat(s, i, [c], x);
    SkipNothing(s, i);
    SkipNothing(s, i + 1);
  }

  lemma WordToken(s: string, i: nat, w: string, x: string)
    requires At(s, i, w + x) && GoodWord(w) && (x != "" ==> !WordChar(x[0]))
    ensures At(s, i + |w|, x) && Text(s, Span(i, i + |w|)) == w
    ensures GetToken(s, i) == Lexeme(Word, i, i + |w|, SkipWhite(s, i + |w|))
    ensures forall toks :: Peek(s, i, toks) <==> w[0] in toks
  {
    AtConcat(s, i, w, x);
    SkipNothing(s, i);
    SkipWordExact(s, i, i + |w|);
    assert s[i] == w[0];
  }

  lemma RestChar(rest: string)
    requires Before(rest, "<|>&;)")
    ensures rest != "" ==> !WordChar(rest[0]) && !White(rest[0])
  {
  }

  lemma RestToken(s: string, i: nat, rest: string)
    requires At(s, i, rest) && Before(rest, "<|>&;)")
    ensures SkipWhite(s, i) == i
    ensures forall toks :: Peek(s, i, toks) <==> rest != "" && rest[0] in toks
    ensures rest == "" ==> GetToken(s, i) == Lexeme(End, i, i, i)
  {
    AtConcat(s, i, "", rest);
    assert "" + rest == rest;
    SkipNothing(s, i);
  }

  // ---- Reading an EXEC command and redirections ----

  /** What is left to do for parseexec after redirections: the argument loop, unless in a block. */
  function Resume(s: string, block: bool, r: Parsed, argc: nat): Parsed
    requires r.Ok? ==> r.pos <= |s|
  {
    if block || !r.Ok? then r else ParseArgs(s, r.pos, r.cmd, argc)
  }

  lemma OneWord(s: string, i: nat, spans: seq<Span>, w: string, x: string)
    requires At(s, i, w + x) && GoodWord(w) && (x != "" ==> !WordChar(x[0])) && |spans| + 1 < MAXARGS
    ensures var j := SkipWhite(s, i + |w|);
            var spans' := spans + [Span(i, i + |w|)];
            && i + |w| <= |s| && Texts(s, spans') == Texts(s, spans) + [w]
            && Resume(s, false, ParseRedirs(s, i, Exec(spans)), |spans|)
               == Resume(s, false, ParseRedirs(s, j, Exec(spans')), |spans'|)
  {
    hide GetToken, Peek, SkipWhite, Text, At, White;
    WordToken(s, i, w, x);
    assert WordChar(w[0]) && s[i] == w[0] by { AtConcat(s, i, w, x); }
    SkipNothing(s, i);
  }

  /** What follows the first word. */
  function AfterFirst(ws: seq<string>, rest: string): string
    requires |ws| > 0
  {
    if |ws| == 1 then rest else " " + (PrintWords(ws[1..]) + rest)
  }

  lemma FirstWord(ws: seq<string>, rest: string)
    requires |ws| > 0
    ensures PrintWords(ws) + rest == ws[0] + AfterFirst(ws, rest)
  {
    if |ws| > 1 {
      Regroup(ws[0], PrintWords(ws[1..]), rest);
    }
  }

  lemma Regroup(w: string, x: string, rest: string)
    ensures w + " " + x + rest == w + (" " + (x + rest))
  {
  }

  lemma FirstEnds(ws: seq<string>, rest: string)
    requires |ws| > 0 && Before(rest, "<|>&;)")
    ensures var x := AfterFirst(ws, rest); x != "" ==> !WordChar(x[0])
  {
    RestChar(rest);
    assert !WordChar(' ');
  }

  /** After a word and a blank comes the next word. */
  lemma NextWord(s: string, i: nat, ws: seq<string>, rest: string)
    requires |ws| > 0 && GoodWord(ws[0]) && At(s, i, " " + (PrintWords(ws) + rest))
    ensures SkipWhite(s, i) == i + 1 && At(s, i + 1, PrintWords(ws) + rest)
  {
    var y := PrintWords(ws) + rest;
    AtConcat(s, i, " ", y);
    assert y[0] == ws[0][0] && WordChar(y[0]);
    SkipNothing(s, i + 1);
  }

  /** From behind the first word, blanks lead to the next word or to the rest. */
  lemma PastFirst(s: string, i: nat, ws: seq<string>, rest: string)
    requires |ws| > 0 && At(s, i, AfterFirst(ws, rest)) && Before(rest, "<|>&;)")
    requires forall k :: 0 <= k < |ws| ==> GoodWord(ws[k])
    ensures At(s, SkipWhite(s, i), PrintWords(ws[1..]) + rest)
  {
    hide PrintWords, SkipWhite, GoodWord, At, Before;
    if |ws| == 1 {
      RestToken(s, i, rest);
      NoWords(ws[1..], rest);
    } else {
      NextWord(s, i, ws[1..], rest);
    }
  }

  lemma AtTail(s: string, i: nat, a: string, b: string)
    requires At(s, i, a + b)
    ensures i + |a| <= |s| && At(s, i + |a|, b)
  {
    AtConcat(s, i, a, b);
  }

  lemma NoWords(ws: seq<string>, rest: string)
    requires ws == []
    ensures PrintWords(ws) + rest == rest
  {
  }

  lemma {:induction false} ManyWords(s: string, i: nat, spans: seq<Span>, ws: seq<string>, rest: string)
    returns (j: nat, spans': seq<Span>)
    requires At(s, i, PrintWords(ws) + rest) && Before(rest, "<|>&;)")
    requires |spans| + |ws| < MAXARGS && forall k :: 0 <= k < |ws| ==> GoodWord(ws[k])
    ensures At(s, j, rest) && Texts(s, spans') == Texts(s, spans) + ws
    ensures Resume(s, false, ParseRedirs(s, i, Exec(spans)), |spans|)
         == Resume(s, false, ParseRedirs(s, j, Exec(spans')), |spans'|)
    decreases |ws|
  {
    hide ParseRedirs, ParseArgs, Resume, Texts, At, SkipWhite, GoodWord, PrintWords, AfterFirst, Before, WordChar;
    if ws == [] {
      j, spans' := i, spans;
      NoWords(ws, rest);
    } else {
      var w := ws[0];
      FirstWord(ws, rest);
      FirstEnds(ws, rest);
      AtTail(s, i, w, AfterFirst(ws, rest));
      PastFirst(s, i + |w|, ws, rest);
      assert ws == [w] + ws[1..];
      OneWord(s, i, spans, w, AfterFirst(ws, rest));
      j, spans' := ManyWords(s, SkipWhite(s, i + |w|), spans + [Span(i, i + |w|)], ws[1..], rest);
    }
  }

  lemma OneRedir(s: string, i: nat, cmd: Cmd<Span>, dir: Direction, file: string, rest: string)
    requires At(s, i, PrintDir(dir) + file + rest) && GoodWord(file) && Before(rest, "<|>&;)")
    ensures var q := i + 1;
            var j := q + |file|;
            && At(s, j, rest) && Text(s, Span(q, j)) == file
            && ParseRedirs(s, i, cmd) == ParseRedirs(s, j, Redir(cmd, Span(q, j), dir))
  {
    hide Peek, GetToken, SkipWhite, At, ParseArgs, Text, White, WordChar, GoodWord;
    var c := PrintDir(dir)[0];
    RedirText(dir, file, rest);
    SymbolToken(s, i, c, file + rest);
    RestChar(rest);
    WordToken(s, i + 1, file, rest);
    RestToken(s, i + 1 + |file|, rest);
  }

  lemma RedirText(dir: Direction, file: string, rest: string)
    requires GoodWord(file)
    ensures var c := PrintDir(dir)[0]; PrintDir(dir) + file + rest == [c] + (file + rest) && IsSymbol(c)
    ensures file + rest != "" && (file + rest)[0] != '>' && !White((file + rest)[0])
  {
    assert (file + rest)[0] == file[0] && WordChar(file[0]);
  }

  lemma RedirChar(dir: Direction)
    ensures |PrintDir(dir)| == 1 && !White(PrintDir(dir)[0]) && !White('|') && !White('&') && !White(';') && !White('(')
  {
  }

  lemma TightWords(argv: seq<string>, y: string)
    requires (forall k :: 0 <= k < |argv| ==> GoodWord(argv[k])) && (y != "" ==> !White(y[0]))
    ensures var x := PrintWords(argv) + y; x != "" ==> !White(x[0])
  {
    if argv != [] {
      assert GoodWord(argv[0]) && (PrintWords(argv) + y)[0] == argv[0][0];
    }
  }

  /** Printed text does not start with white space. */
  lemma {:induction false} Tight(level: nat, t: Tree, y: string)
    requires level <= 3 && Printable(t) && (y != "" ==> !White(y[0]))
    ensures var x := Print(level, t) + y; x != "" ==> !White(x[0])
    decreases t, (level - Own(t)) % 4
  {
    RedirChar(In);
    hide GoodWord, White, PrintWords, PrintDir;
    if level == Own(t) {
      match t
      case Exec(argv) =>
        TightWords(argv, y);
      case Redir(c, file, dir) =>
        RedirChar(dir);
        Tight(0, c, PrintDir(dir) + file + y);
        assert Print(0, t) + y == Print(0, c) + (PrintDir(dir) + file + y);
      case Pipeline(l, r) =>
        Tight(0, l, "|" + Print(1, r) + y);
        assert Print(1, t) + y == Print(0, l) + ("|" + Print(1, r) + y);
      case Back(c) =>
        Tight(2, c, "&" + y);
        assert Print(2, t) + y == Print(2, c) + ("&" + y);
      case List(l, r) =>
        Tight(2, l, ";" + Print(3, r) + y);
        assert Print(3, t) + y == Print(2, l) + (";" + Print(3, r) + y);
    } else if level > 0 {
      Tight(level - 1, t, y);
    }
  }

  /** When no redirection follows, parseexec is done. */
  lemma ExecDone(s: string, block: bool, j: nat, cmd: Cmd<Span>, argc: nat, rest: string)
    requires At(s, j, rest) && Before(rest, "|&;)")
    ensures Resume(s, block, ParseRedirs(s, j, cmd), argc) == Ok(cmd, j)
  {
    RestToken(s, j, rest);
  }

  // ---- The round trip, level by level ----

  lemma ExecWords(s: string, i: nat, argv: seq<string>, rest: string) returns (j: nat, spans: seq<Span>)
    requires At(s, i, PrintWords(argv) + rest) && Printable(Exec(argv)) && Before(rest, "<|>&;)")
    ensures At(s, j, rest) && Texts(s, spans) == argv
    ensures ParseExec(s, i) == Resume(s, false, ParseRedirs(s, j, Exec(spans)), |spans|)
  {
    var x := PrintWords(argv) + rest;
    if argv == [] {
      RestToken(s, i, x);
    } else {
      var w := argv[0];
      var y := if |argv| == 1 then rest else " " + PrintWords(argv[1..]) + rest;
      assert x == w + y && GoodWord(w);
      RestChar(rest);
      WordToken(s, i, w, y);
      assert WordChar(w[0]);
    }
    assert !Peek(s, i, "(");
    hide ParseRedirs, ParseArgs, Peek, At;
    j, spans := ManyWords(s, i, [], argv, rest);
  }

  /** Level 0: parseexec has read `t` and goes on as after a redirection. */
  lemma {:induction false} ExecTrip(s: string, i: nat, t: Tree, rest: string)
    returns (j: nat, cmd: Cmd<Span>, block: bool, argc: nat)
    requires At(s, i, Print(0, t) + rest) && Printable(t) && Before(rest, "<|>&;)")
    ensures At(s, j, rest) && Strip(s, cmd) == t
    ensures ParseExec(s, i) == Resume(s, block, ParseRedirs(s, j, cmd), argc)
    decreases t, (0 - Own(t)) % 4
  {
    hide ParseRedirs, ParseArgs, Peek, At, GetToken, ParseExec, ParseLine, Texts;
    match t
    case Exec(argv) =>
      var spans;
      j, spans := ExecWords(s, i, argv, rest);
      cmd, block, argc := Exec(spans), false, |spans|;
    case Redir(c, file, dir) =>
      var x := PrintDir(dir) + file + rest;
      assert Print(0, t) + rest == Print(0, c) + x;
      var k, inner;
      k, inner, block, argc := ExecTrip(s, i, c, x);
      OneRedir(s, k, inner, dir, file, rest);
      j, cmd := k + 1 + |file|, Redir(inner, Span(k + 1, k + 1 + |file|), dir);
    case _ =>
      j, cmd := BlockTrip(s, i, t, rest);
      block, argc := true, 0;
  }

  /** A command of another level is read in parentheses. */
  lemma {:induction false} BlockTrip(s: string, i: nat, t: Tree, rest: string) returns (j: nat, cmd: Cmd<Span>)
    requires At(s, i, Print(0, t) + rest) && Printable(t) && Before(rest, "<|>&;)") && Own(t) != 0
    ensures At(s, j, rest) && Strip(s, cmd) == t
    ensures ParseExec(s, i) == ParseRedirs(s, j, cmd)
    decreases t, (3 - Own(t)) % 4, 1
  {
    hide ParseRedirs, ParseArgs, Peek, At, GetToken, ParseLine, Print;
    var x := Print(3, t) + (")" + rest);
    BlockText(t, rest);
    Tight(3, t, ")" + rest);
    SymbolToken(s, i, '(', x);
    var k;
    k, cmd := LineTrip(s, i + 1, t, ")" + rest);
    RestChar(rest);
    SymbolToken(s, k, ')', rest);
    j := k + 1;
  }

  lemma BlockText(t: Tree, rest: string)
    requires Own(t) != 0
    ensures Print(0, t) + rest == ['('] + (Print(3, t) + (")" + rest))
    ensures ")" + rest == [')'] + rest
  {
  }

  /** Level 1. */
  lemma {:induction false} PipeTrip(s: string, i: nat, t: Tree, rest: string) returns (j: nat, cmd: Cmd<Span>)
    requires At(s, i, Print(1, t) + rest) && Printable(t) && Before(rest, "&;)")
    ensures At(s, j, rest) && Strip(s, cmd) == t && ParsePipe(s, i) == Ok(cmd, j)
    decreases t, (1 - Own(t)) % 4
  {
    hide ParseRedirs, ParseArgs, Peek, At, GetToken, ParseExec, ParseLine, Texts;
    var block, argc;
    if Own(t) == 1 {
      var x := Print(1, t.right) + rest;
      assert Print(1, t) + rest == Print(0, t.left) + (['|'] + x);
      var k, l, r;
      k, l, block, argc := ExecTrip(s, i, t.left, ['|'] + x);
      ExecDone(s, block, k, l, argc, ['|'] + x);
      RestChar(rest);
      Tight(1, t.right, rest);
      SymbolToken(s, k, '|', x);
      j, r := PipeTrip(s, k + 1, t.right, rest);
      cmd := Pipeline(l, r);
    } else {
      assert Print(1, t) == Print(0, t);
      j, cmd, block, argc := ExecTrip(s, i, t, rest);
      ExecDone(s, block, j, cmd, argc, rest);
      RestToken(s, j, rest);
    }
  }

  /** Level 2: parseline has read `t` and goes on with its loop. */
  lemma {:induction false} BackTrip(s: string, i: nat, t: Tree, rest: string) returns (j: nat, cmd: Cmd<Span>)
    requires At(s, i, Print(2, t) + rest) && Printable(t) && Before(rest, "&;)")
    ensures At(s, j, rest) && Strip(s, cmd) == t && ParsePipe(s, i).Ok?
    ensures ParseBacks(s, ParsePipe(s, i).pos, ParsePipe(s, i).cmd) == ParseBacks(s, j, cmd)
    decreases t, (2 - Own(t)) % 4
  {
    hide ParsePipe, Peek, At, GetToken;
    if Own(t) == 2 {
      assert Print(2, t) + rest == Print(2, t.cmd) + (['&'] + rest);
      var c;
      j, c := BackTrip(s, i, t.cmd, ['&'] + rest);
      RestChar(rest);
      SymbolToken(s, j, '&', rest);
      j, cmd := j + 1, Back(c);
    } else {
      assert Print(2, t) == Print(1, t);
      j, cmd := PipeTrip(s, i, t, rest);
    }
  }

  /** Level 3. */
  lemma {:induction false} LineTrip(s: string, i: nat, t: Tree, rest: string) returns (j: nat, cmd: Cmd<Span>)
    requires At(s, i, Print(3, t) + rest) && Printable(t) && Before(rest, ")")
    ensures At(s, j, rest) && Strip(s, cmd) == t && ParseLine(s, i) == Ok(cmd, j)
    decreases t, (3 - Own(t)) % 4, 0
  {
    hide ParsePipe, Peek, At, GetToken, ParseExec, Texts, Print;
    if Own(t) == 3 {
      var x := Print(3, t.right) + rest;
      ListText(t, rest);
      var k, l, r;
      k, l := BackTrip(s, i, t.left, [';'] + x);
      RestToken(s, k, [';'] + x);
      RestChar(rest);
      Tight(3, t.right, rest);
      SymbolToken(s, k, ';', x);
      j, r := LineTrip(s, k + 1, t.right, rest);
      cmd := List(l, r);
    } else {
      SameText(t);
      j, cmd := BackTrip(s, i, t, rest);
      RestToken(s, j, rest);
    }
  }

  lemma ListText(t: Tree, rest: string)
    requires Own(t) == 3
    ensures Print(3, t) + rest == Print(2, t.left) + ([';'] + (Print(3, t.right) + rest))
  {
  }

  lemma SameText(t: Tree)
    requires Own(t) != 3
    ensures Print(3, t) == Print(2, t)
  {
  }

  /** Parsing the printed form of a command gives the command back. */
  lemma RoundTrip(t: Tree)
    requires Printable(t)
    ensures var s := Print(3, t); ParseCmd(s).Ok? && Strip(s, ParseCmd(s).cmd) == t
  {
    var s := Print(3, t);
    assert s + "" == s && s[0..] == s;
    var j, cmd := LineTrip(s, 0, t, "");
    RestToken(s, j, "");
  }
}
