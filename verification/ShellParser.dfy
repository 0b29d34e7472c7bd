/** The shell's grammar: tokens and the recursive-descent parser as functions of the buffer.

    A buffer `s` holds the characters before the terminating NUL; positions are indices into it.
    Words are spans of the buffer, as the parser keeps pointers into it. */
module ShellParser {
  const MAXARGS := 10

  datatype Span = Span(q: nat, eq: nat)

  /** `<` opens for reading as descriptor 0; `>` and `>>` both open for writing as descriptor 1. */
  datatype Direction = In | Out

  datatype Cmd<W> =
    | Exec(argv: seq<W>)
    | Redir(cmd: Cmd<W>, file: W, dir: Direction)
    | Pipeline(left: Cmd<W>, right: Cmd<W>)
    | List(left: Cmd<W>, right: Cmd<W>)
    | Back(cmd: Cmd<W>)

  /** A command and the position after it, or a syntax error. */
  datatype Parsed = Ok(cmd: Cmd<Span>, pos: nat) | Syntax

  datatype Token = End | Symbol(c: char) | Append | Word

  // ---- Tokens ----

  predicate White(c: char) { c == ' ' || c == '\t' || c == '\r' || c == '\n' || c == '\U{b}' }

  predicate IsSymbol(c: char) { c in "<|>&;()" }

  predicate WordChar(c: char) { !White(c) && !IsSymbol(c) }

  /** First position from `i` on that is not white space. */
  function SkipWhite(s: string, i: nat): (j: nat)
    requires i <= |s|
    ensures i <= j <= |s| && (j < |s| ==> !White(s[j]))
    decreases |s| - i
  {
    if i < |s| && White(s[i]) then SkipWhite(s, i + 1) else i
  }

  /** First position from `i` on that is not a word character. */
  function SkipWord(s: string, i: nat): (j: nat)
    requires i <= |s|
    ensures i <= j <= |s| && (j < |s| ==> !WordChar(s[j]))
    ensures forall k :: i <= k < j ==> WordChar(s[k])
    ensures i < |s| && WordChar(s[i]) ==> i < j
    decreases |s| - i
  {
    if i < |s| && WordChar(s[i]) then SkipWord(s, i + 1) else i
  }

  /** A token: its kind, its first character, the position after it, and where scanning goes on. */
  datatype Lexeme = Lexeme(kind: Token, q: nat, eq: nat, next: nat)

  function GetToken(s: string, i: nat): (t: Lexeme)
    requires i <= |s|
    ensures i <= t.q <= t.eq <= t.next <= |s| && (t.next < |s| ==> !White(s[t.next]))
    ensures t.kind == End <==> t.q == |s|
    ensures t.kind != End ==> t.q < t.eq
    ensures t.kind == Word ==> IsWord(s, Span(t.q, t.eq))
  {
    var q := SkipWhite(s, i);
    if q == |s| then Lexeme(End, q, q, q)
    else if s[q] == '>' then
      if q + 1 < |s| && s[q + 1] == '>' then Lexeme(Append, q, q + 2, SkipWhite(s, q + 2))
      else Lexeme(Symbol('>'), q, q + 1, SkipWhite(s, q + 1))
    else if IsSymbol(s[q]) then Lexeme(Symbol(s[q]), q, q + 1, SkipWhite(s, q + 1))
    else
      var eq := SkipWord(s, q);
      Lexeme(Word, q, eq, SkipWhite(s, eq))
  }

  /** A maximal run of word characters ends at `w.eq`. */
  ghost predicate IsWord(s: string, w: Span) {
    && w.q < w.eq <= |s|
    && (forall k :: w.q <= k < w.eq ==> WordChar(s[k]))
    && (w.eq < |s| ==> !WordChar(s[w.eq]))
  }

  predicate Peek(s: string, i: nat, toks: string)
    requires i <= |s|
  {
    var j := SkipWhite(s, i);
    j < |s| && s[j] in toks
  }

  // ---- The parser ----

  /** The EXEC command inside redirections gets one more argument. */
  function AddArg<W>(cmd: Cmd<W>, w: W): Cmd<W> {
    match cmd
    case Exec(argv) => Exec(argv + [w])
    case Redir(c, file, dir) => Redir(AddArg(c, w), file, dir)
    case _ => cmd
  }

  function ParseRedirs(s: string, i: nat, cmd: Cmd<Span>): (r: Parsed)
    requires i <= |s|
    ensures r.Ok? ==> i <= r.pos <= |s|
    decreases |s| - i
  {
    if Peek(s, i, "<>") then
      var t := GetToken(s, i);
      var f := GetToken(s, t.next);
      if f.kind != Word then Syntax
      else ParseRedirs(s, f.next, Redir(cmd, Span(f.q, f.eq), if t.kind == Symbol('<') then In else Out))
    else Ok(cmd, SkipWhite(s, i))
  }

  function ParseArgs(s: string, i: nat, cmd: Cmd<Span>, argc: nat): (r: Parsed)
    requires i <= |s|
    ensures r.Ok? ==> i <= r.pos <= |s|
    decreases |s| - i
  {
    if Peek(s, i, "|)&;") then Ok(cmd, SkipWhite(s, i))
    else
      var t := GetToken(s, i);
      if t.kind == End then Ok(cmd, t.next)
      else if t.kind != Word || argc + 1 >= MAXARGS then Syntax
      else
        var r := ParseRedirs(s, t.next, AddArg(cmd, Span(t.q, t.eq)));
        if r.Ok? then ParseArgs(s, r.pos, r.cmd, argc + 1) else Syntax
  }

  function ParseExec(s: string, i: nat): (r: Parsed)
    requires i <= |s|
    ensures r.Ok? ==> i <= r.pos <= |s|
    decreases |s| - i, 1
  {
    if Peek(s, i, "(") then ParseBlock(s, i)
    else
      var r := ParseRedirs(s, i, Exec([]));
      if r.Ok? then ParseArgs(s, r.pos, r.cmd, 0) else Syntax
  }

  function ParseBlock(s: string, i: nat): (r: Parsed)
    requires i <= |s|
    ensures r.Ok? ==> i <= r.pos <= |s|
    decreases |s| - i, 0
  {
    if !Peek(s, i, "(") then Syntax
    else
      var t := GetToken(s, i);
      var r := ParseLine(s, t.next);
      if !r.Ok? || !Peek(s, r.pos, ")") then Syntax
      else ParseRedirs(s, GetToken(s, r.pos).next, r.cmd)
  }

  function ParsePipe(s: string, i: nat): (r: Parsed)
    requires i <= |s|
    ensures r.Ok? ==> i <= r.pos <= |s|
    decreases |s| - i, 2
  {
    var l := ParseExec(s, i);
    if !l.Ok? then Syntax
    else if Peek(s, l.pos, "|") then
      var r := ParsePipe(s, GetToken(s, l.pos).next);
      if r.Ok? then Ok(Pipeline(l.cmd, r.cmd), r.pos) else Syntax
    else Ok(l.cmd, SkipWhite(s, l.pos))
  }

  function ParseBacks(s: string, i: nat, cmd: Cmd<Span>): (r: Parsed)
    requires i <= |s|
    ensures r.Ok? && i <= r.pos <= |s|
    decreases |s| - i
  {
    if Peek(s, i, "&") then ParseBacks(s, GetToken(s, i).next, Back(cmd)) else Ok(cmd, SkipWhite(s, i))
  }

  function ParseLine(s: string, i: nat): (r: Parsed)
    requires i <= |s|
    ensures r.Ok? ==> i <= r.pos <= |s|
    decreases |s| - i, 3
  {
    var p := ParsePipe(s, i);
    if !p.Ok? then Syntax
    else
      var l := ParseBacks(s, p.pos, p.cmd);
      if Peek(s, l.pos, ";") then
        var r := ParseLine(s, GetToken(s, l.pos).next);
        if r.Ok? then Ok(List(l.cmd, r.cmd), r.pos) else Syntax
      else Ok(l.cmd, SkipWhite(s, l.pos))
  }

  /** parsecmd: the whole buffer must be one line. */
  function ParseCmd(s: string): (r: Parsed)
    ensures r.Ok? ==> r.pos == |s|
  {
    var r := ParseLine(s, 0);
    if r.Ok? && SkipWhite(s, r.pos) == |s| then Ok(r.cmd, |s|) else Syntax
  }

  // ---- Every word of a parsed command is a maximal word of the buffer ----

  ghost predicate WordsIn(s: string, cmd: Cmd<Span>) {
    match cmd
    case Exec(argv) => forall k :: 0 <= k < |argv| ==> IsWord(s, argv[k])
    case Redir(c, file, _) => WordsIn(s, c) && IsWord(s, file)
    case Pipeline(l, r) => WordsIn(s, l) && WordsIn(s, r)
    case List(l, r) => WordsIn(s, l) && WordsIn(s, r)
    case Back(c) => WordsIn(s, c)
  }

  lemma {:induction false} AddArgWords(s: string, cmd: Cmd<Span>, w: Span)
    requires WordsIn(s, cmd) && IsWord(s, w)
    ensures WordsIn(s, AddArg(cmd, w))
  {
    match cmd
    case Exec(argv) =>
    case Redir(c, _, _) => AddArgWords(s, c, w);
    case _ =>
  }

  lemma {:induction false} RedirsWords(s: string, i: nat, cmd: Cmd<Span>)
    requires i <= |s| && WordsIn(s, cmd)
    ensures ParseRedirs(s, i, cmd).Ok? ==> WordsIn(s, ParseRedirs(s, i, cmd).cmd)
    decreases |s| - i
  {
    if Peek(s, i, "<>") {
      var t := GetToken(s, i);
      var f := GetToken(s, t.next);
      if f.kind == Word {
        RedirsWords(s, f.next, Redir(cmd, Span(f.q, f.eq), if t.kind == Symbol('<') then In else Out));
      }
    }
  }

  lemma {:induction false} ArgsWords(s: string, i: nat, cmd: Cmd<Span>, argc: nat)
    requires i <= |s| && WordsIn(s, cmd)
    ensures ParseArgs(s, i, cmd, argc).Ok? ==> WordsIn(s, ParseArgs(s, i, cmd, argc).cmd)
    decreases |s| - i
  {
    hide GetToken, Peek, ParseRedirs, IsWord, AddArg, WordsIn;
    var t := GetToken(s, i);
    if !Peek(s, i, "|)&;") && t.kind == Word && argc + 1 < MAXARGS {
      AddArgWords(s, cmd, Span(t.q, t.eq));
      RedirsWords(s, t.next, AddArg(cmd, Span(t.q, t.eq)));
      var r := ParseRedirs(s, t.next, AddArg(cmd, Span(t.q, t.eq)));
      if r.Ok? {
        ArgsWords(s, r.pos, r.cmd, argc + 1);
      }
    }
  }

  lemma {:induction false} BacksWords(s: string, i: nat, cmd: Cmd<Span>)
    requires i <= |s| && WordsIn(s, cmd)
    ensures WordsIn(s, ParseBacks(s, i, cmd).cmd)
    decreases |s| - i
  {
    if Peek(s, i, "&") {
      BacksWords(s, GetToken(s, i).next, Back(cmd));
    }
  }

  lemma {:induction false} ExecWords(s: string, i: nat)
    requires i <= |s|
    ensures ParseExec(s, i).Ok? ==> WordsIn(s, ParseExec(s, i).cmd)
    decreases |s| - i, 1
  {
    if Peek(s, i, "(") {
      var r := ParseLine(s, GetToken(s, i).next);
      LineWords(s, GetToken(s, i).next);
      if r.Ok? && Peek(s, r.pos, ")") {
        RedirsWords(s, GetToken(s, r.pos).next, r.cmd);
      }
    } else {
      RedirsWords(s, i, Exec([]));
      var r := ParseRedirs(s, i, Exec([]));
      if r.Ok? {
        ArgsWords(s, r.pos, r.cmd, 0);
      }
    }
  }

  lemma {:induction false} PipeWords(s: string, i: nat)
    requires i <= |s|
    ensures ParsePipe(s, i).Ok? ==> WordsIn(s, ParsePipe(s, i).cmd)
    decreases |s| - i, 2
  {
    ExecWords(s, i);
    var l := ParseExec(s, i);
    if l.Ok? && Peek(s, l.pos, "|") {
      PipeWords(s, GetToken(s, l.pos).next);
    }
  }

  lemma {:induction false} LineWords(s: string, i: nat)
    requires i <= |s|
    ensures ParseLine(s, i).Ok? ==> WordsIn(s, ParseLine(s, i).cmd)
    decreases |s| - i, 3
  {
    PipeWords(s, i);
    var p := ParsePipe(s, i);
    if p.Ok? {
      BacksWords(s, p.pos, p.cmd);
      var l := ParseBacks(s, p.pos, p.cmd);
      if Peek(s, l.pos, ";") {
        LineWords(s, GetToken(s, l.pos).next);
      }
    }
  }
}
