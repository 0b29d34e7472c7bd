/** The shell's parser as it runs: loops that advance through the buffer, and the pass that turns
    the words into NUL-terminated strings in place. */
module Shell {
  import opened ShellParser
  import opened ShellPrinter

  const NUL: char := '\0'

  /** The white-space loops of gettoken and peek. */
  method SkipBlanks(s: string, i: nat) returns (j: nat)
    requires i <= |s|
    ensures j == SkipWhite(s, i)
  {
    j := i;
    while j < |s| && White(s[j])
      invariant i <= j <= |s| && SkipWhite(s, j) == SkipWhite(s, i)
    {
      j := j + 1;
    }
  }

  /** gettoken */
  method NextToken(s: string, i: nat) returns (t: Lexeme)
    requires i <= |s|
    ensures t == GetToken(s, i)
  {
    var q := SkipBlanks(s, i);
    var eq := q;
    var kind := End;
    if q < |s| {
      if s[q] in "|();&<" {
        kind := Symbol(s[q]);
        eq := eq + 1;
      } else if s[q] == '>' {
        kind := Symbol('>');
        eq := eq + 1;
        if eq < |s| && s[eq] == '>' {
          kind := Append;
          eq := eq + 1;
        }
      } else {
        kind := Word;
        while eq < |s| && !White(s[eq]) && !IsSymbol(s[eq])
          invariant q <= eq <= |s| && SkipWord(s, eq) == SkipWord(s, q)
        {
          eq := eq + 1;
        }
      }
    }
    var next := SkipBlanks(s, eq);
    t := Lexeme(kind, q, eq, next);
  }

  /** peek: the new position and whether one of `toks` is there. */
  method PeekAt(s: string, i: nat, toks: string) returns (j: nat, found: bool)
    requires i <= |s|
    ensures j == SkipWhite(s, i) && found == Peek(s, i, toks)
  {
    j := SkipBlanks(s, i);
    found := j < |s| && s[j] in toks;
  }

  lemma SkipTwice(s: string, i: nat)
    requires i <= |s|
    ensures SkipWhite(s, SkipWhite(s, i)) == SkipWhite(s, i)
    ensures GetToken(s, SkipWhite(s, i)) == GetToken(s, i)
    ensures forall toks :: Peek(s, SkipWhite(s, i), toks) == Peek(s, i, toks)
  {
  }

  /** parseredirs */
  method Redirections(s: string, i: nat, cmd: Cmd<Span>) returns (r: Parsed)
    requires i <= |s|
    ensures r == ParseRedirs(s, i, cmd)
  {
    hide GetToken, SkipWhite, Peek;
    var c, pos := cmd, i;
    var j, more := PeekAt(s, pos, "<>");
    while more
      invariant pos <= |s| && j == SkipWhite(s, pos) && more == Peek(s, pos, "<>")
      invariant ParseRedirs(s, pos, c) == ParseRedirs(s, i, cmd)
      decreases |s| - pos, more
    {
      SkipTwice(s, pos);
      var t := NextToken(s, j);
      var f := NextToken(s, t.next);
      if f.kind != Word {
        return Syntax;
      }
      c := Redir(c, Span(f.q, f.eq), if t.kind == Symbol('<') then In else Out);
      pos := f.next;
      j, more := PeekAt(s, pos, "<>");
    }
    return Ok(c, j);
  }

  /** parseexec */
  method ExecCommand(s: string, i: nat) returns (r: Parsed)
    requires i <= |s|
    ensures r == ParseExec(s, i)
    decreases |s| - i, 1
  {
    hide GetToken, SkipWhite, Peek, ParseRedirs;
    var j, block := PeekAt(s, i, "(");
    if block {
      r := BlockCommand(s, i);
      return;
    }
    r := Redirections(s, i, Exec([]));
    if !r.Ok? {
      return;
    }
    var argc := 0;
    while true
      invariant r.Ok? && i <= r.pos <= |s| && ParseArgs(s, r.pos, r.cmd, argc) == ParseExec(s, i)
      decreases |s| - r.pos
    {
      var k, stop := PeekAt(s, r.pos, "|)&;");
      if stop {
        return Ok(r.cmd, k);
      }
      var t := NextToken(s, r.pos);
      if t.kind == End {
        return Ok(r.cmd, t.next);
      }
      if t.kind != Word {
        return Syntax;
      }
      argc := argc + 1;
      if argc >= MAXARGS {
        return Syntax;
      }
      r := Redirections(s, t.next, AddArg(r.cmd, Span(t.q, t.eq)));
      if !r.Ok? {
        return Syntax;
      }
    }
  }

  /** parseblock */
  method BlockCommand(s: string, i: nat) returns (r: Parsed)
    requires i <= |s|
    ensures r == ParseBlock(s, i)
    decreases |s| - i, 0
  {
    hide GetToken, SkipWhite, Peek, ParseRedirs;
    var j, open := PeekAt(s, i, "(");
    if !open {
      return Syntax;
    }
    OpenAdvances(s, i, "(");
    var t := NextToken(s, i);
    r := LineCommand(s, t.next);
    if !r.Ok? {
      return Syntax;
    }
    var k, close := PeekAt(s, r.pos, ")");
    if !close {
      return Syntax;
    }
    t := NextToken(s, r.pos);
    r := Redirections(s, t.next, r.cmd);
  }

  lemma OpenAdvances(s: string, i: nat, toks: string)
    requires i <= |s| && Peek(s, i, toks)
    ensures i < GetToken(s, i).next
  {
  }

  /** parsepipe */
  method PipeCommand(s: string, i: nat) returns (r: Parsed)
    requires i <= |s|
    ensures r == ParsePipe(s, i)
    decreases |s| - i, 2
  {
    hide GetToken, SkipWhite, Peek, ParseExec;
    r := ExecCommand(s, i);
    if !r.Ok? {
      return;
    }
    var j, more := PeekAt(s, r.pos, "|");
    if more {
      OpenAdvances(s, r.pos, "|");
      var t := NextToken(s, r.pos);
      var right := PipeCommand(s, t.next);
      r := if right.Ok? then Ok(Pipeline(r.cmd, right.cmd), right.pos) else Syntax;
    } else {
      r := Ok(r.cmd, j);
    }
  }

  /** parseline */
  method LineCommand(s: string, i: nat) returns (r: Parsed)
    requires i <= |s|
    ensures r == ParseLine(s, i)
    decreases |s| - i, 3
  {
    hide GetToken, SkipWhite, Peek, ParsePipe;
    r := PipeCommand(s, i);
    if !r.Ok? {
      return;
    }
    ghost var p := r;
    var j, more := PeekAt(s, r.pos, "&");
    while more
      invariant r.Ok? && i <= r.pos <= |s| && j == SkipWhite(s, r.pos) && more == Peek(s, r.pos, "&")
      invariant ParseBacks(s, r.pos, r.cmd) == ParseBacks(s, p.pos, p.cmd)
      decreases |s| - r.pos, more
    {
      OpenAdvances(s, r.pos, "&");
      var t := NextToken(s, r.pos);
      r := Ok(Back(r.cmd), t.next);
      j, more := PeekAt(s, r.pos, "&");
    }
    r := Ok(r.cmd, j);
    j, more := PeekAt(s, r.pos, ";");
    if more {
      OpenAdvances(s, r.pos, ";");
      var t := NextToken(s, r.pos);
      var right := LineCommand(s, t.next);
      r := if right.Ok? then Ok(List(r.cmd, right.cmd), right.pos) else Syntax;
    } else {
      r := Ok(r.cmd, j);
    }
  }

  // ---- NUL-terminating the words ----

  /** The words of a command. */
  function Words(cmd: Cmd<Span>): set<Span> {
    match cmd
    case Exec(argv) => set k | 0 <= k < |argv| :: argv[k]
    case Redir(c, file, _) => Words(c) + {file}
    case Pipeline(l, r) => Words(l) + Words(r)
    case List(l, r) => Words(l) + Words(r)
    case Back(c) => Words(c)
  }

  /** Position `k` is just behind a word of `cmd`. */
  ghost predicate Behind(cmd: Cmd<Span>, k: int) {
    exists w :: w in Words(cmd) && w.eq == k
  }

  /** `b` is `a` with a NUL behind every word of `cmd`. */
  ghost predicate Terminated(cmd: Cmd<Span>, a: seq<char>, b: seq<char>) {
    |a| == |b| && forall k :: 0 <= k < |a| ==> b[k] == if Behind(cmd, k) then NUL else a[k]
  }

  lemma TerminatedBoth(l: Cmd<Span>, r: Cmd<Span>, cmd: Cmd<Span>, a: seq<char>, b: seq<char>, c: seq<char>)
    requires Terminated(l, a, b) && Terminated(r, b, c) && Words(cmd) == Words(l) + Words(r)
    ensures Terminated(cmd, a, c)
  {
    forall k | 0 <= k < |a| ensures c[k] == if Behind(cmd, k) then NUL else a[k] {
      assert Behind(cmd, k) <==> Behind(l, k) || Behind(r, k) by {
        hide Words;
        if Behind(l, k) {
          var w :| w in Words(l) && w.eq == k;
          assert w in Words(cmd);
        }
        if Behind(r, k) {
          var w :| w in Words(r) && w.eq == k;
          assert w in Words(cmd);
        }
      }
    }
  }

  /** nulterminate: write a NUL behind every word, in place. */
  method NulTerminate(buf: array<char>, cmd: Cmd<Span>)
    requires forall w :: w in Words(cmd) ==> w.eq < buf.Length
    modifies buf
    ensures Terminated(cmd, old(buf[..]), buf[..])
    decreases cmd
  {
    ghost var a := buf[..];
    match cmd
    case Exec(argv) =>
      TerminateArgs(buf, argv);
    case Redir(c, file, _) =>
      NulTerminate(buf, c);
      ghost var b := buf[..];
      assert file in Words(cmd);
      buf[file.eq] := NUL;
      OneWordSet(file);
      TerminatedBoth(c, Exec([file]), cmd, a, b, buf[..]);
    case Pipeline(l, r) =>
      NulTerminate(buf, l);
      ghost var b := buf[..];
      NulTerminate(buf, r);
      TerminatedBoth(l, r, cmd, a, b, buf[..]);
    case List(l, r) =>
      NulTerminate(buf, l);
      ghost var b := buf[..];
      NulTerminate(buf, r);
      TerminatedBoth(l, r, cmd, a, b, buf[..]);
    case Back(c) =>
      NulTerminate(buf, c);
  }

  lemma OneWordSet(w: Span)
    ensures Words(Exec([w])) == {w}
  {
    assert [w][0] in Words(Exec([w]));
  }

  method TerminateArgs(buf: array<char>, argv: seq<Span>)
    requires forall w :: w in Words(Exec(argv)) ==> w.eq < buf.Length
    modifies buf
    ensures Terminated(Exec(argv), old(buf[..]), buf[..])
  {
    ghost var a := buf[..];
    var i := 0;
    while i < |argv|
      invariant 0 <= i <= |argv|
      invariant Terminated(Exec(argv[..i]), a, buf[..])
    {
      assert argv[i] in Words(Exec(argv));
      ghost var b := buf[..];
      buf[argv[i].eq] := NUL;
      OneWordSet(argv[i]);
      ArgsGrow(argv, i);
      TerminatedBoth(Exec(argv[..i]), Exec([argv[i]]), Exec(argv[..i + 1]), a, b, buf[..]);
      i := i + 1;
    }
    assert argv[..|argv|] == argv;
  }

  lemma ArgsGrow(argv: seq<Span>, i: nat)
    requires i < |argv|
    ensures Words(Exec(argv[..i + 1])) == Words(Exec(argv[..i])) + Words(Exec([argv[i]]))
  {
    var x, y := argv[..i + 1], argv[..i];
    OneWordSet(argv[i]);
    assert x == y + [argv[i]];
    forall w | w in Words(Exec(y)) ensures w in Words(Exec(x)) {
      var k :| 0 <= k < |y| && y[k] == w;
      assert x[k] == w;
    }
    assert x[i] in Words(Exec(x));
  }

  /** The string at `q`: the characters up to the next NUL. */
  function CString(b: seq<char>, q: nat): string
    decreases |b| - q
  {
    if q >= |b| || b[q] == NUL then "" else [b[q]] + CString(b, q + 1)
  }

  lemma {:induction false} CStringIs(b: seq<char>, q: nat, eq: nat)
    requires q <= eq < |b| && b[eq] == NUL && forall k :: q <= k < eq ==> b[k] != NUL
    ensures CString(b, q) == b[q..eq]
    decreases eq - q
  {
    if q < eq {
      CStringIs(b, q + 1, eq);
    }
  }

  lemma {:induction false} WordsAreWords(s: string, cmd: Cmd<Span>, w: Span)
    requires WordsIn(s, cmd) && w in Words(cmd)
    ensures IsWord(s, w)
  {
    match cmd
    case Exec(argv) =>
    case Redir(c, file, _) => if w in Words(c) { WordsAreWords(s, c, w); }
    case Pipeline(l, r) => if w in Words(l) { WordsAreWords(s, l, w); } else { WordsAreWords(s, r, w); }
    case List(l, r) => if w in Words(l) { WordsAreWords(s, l, w); } else { WordsAreWords(s, r, w); }
    case Back(c) => WordsAreWords(s, c, w);
  }

  /** After nulterminate every word of a parsed command reads as exactly its token, though the NULs
      were written into the buffer that all words share. */
  lemma WordsReadBack(s: string, cmd: Cmd<Span>, b: seq<char>, w: Span)
    requires NUL !in s && WordsIn(s, cmd) && Terminated(cmd, s + [NUL], b) && w in Words(cmd)
    ensures CString(b, w.q) == Text(s, w)
  {
    WordsAreWords(s, cmd, w);
    assert Behind(cmd, w.eq);
    forall k | w.q <= k < w.eq ensures b[k] == s[k] && b[k] != NUL {
      if Behind(cmd, k) {
        var v :| v in Words(cmd) && v.eq == k;
        WordsAreWords(s, cmd, v);
      }
    }
    CStringIs(b, w.q, w.eq);
  }

  /** parsecmd on a NUL-terminated buffer. */
  method ParseCommand(buf: array<char>, ghost s: string) returns (r: Parsed)
    requires NUL !in s && buf[..] == s + [NUL]
    modifies buf
    ensures r == ParseCmd(s)
    ensures r.Ok? ==> forall w :: w in Words(r.cmd) ==> CString(buf[..], w.q) == Text(s, w)
  {
    var text := buf[..buf.Length - 1];
    assert text == s;
    r := LineCommand(text, 0);
    if !r.Ok? {
      return;
    }
    var j := SkipBlanks(text, r.pos);
    if j != |text| {
      return Syntax;
    }
    LineWords(text, 0);
    forall w | w in Words(r.cmd) ensures w.eq < buf.Length {
      WordsAreWords(text, r.cmd, w);
    }
    NulTerminate(buf, r.cmd);
    forall w | w in Words(r.cmd) ensures CString(buf[..], w.q) == Text(s, w) {
      WordsReadBack(s, r.cmd, buf[..], w);
    }
    r := Ok(r.cmd, |text|);
  }
}
