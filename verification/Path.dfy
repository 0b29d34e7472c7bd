/** Path names: splitting at slashes, and walking the directory tree of module Links. */
module Path {
  import opened Params
  import opened Directory
  import Links

  // ---- Elements ----

  /** How many characters come before the next slash or the end. */
  function ElemLen(p: string): (n: nat)
    ensures n <= |p| && (forall i :: 0 <= i < n ==> p[i] != '/') && (n < |p| ==> p[n] == '/')
  {
    if p == "" || p[0] == '/' then 0 else 1 + ElemLen(p[1..])
  }

  /** The nonempty parts of a path between its slashes. */
  function Elements(p: string): seq<string>
    decreases |p|
  {
    if p == "" then [] else if p[0] == '/' then Elements(p[1..]) else [p[..ElemLen(p)]] + Elements(p[ElemLen(p)..])
  }

  function Slashes(n: nat): (s: string)
    ensures |s| == n && forall i :: 0 <= i < n ==> s[i] == '/'
  {
    seq(n, _ => '/')
  }

  predicate Plain(e: string) { e != "" && '/' !in e }

  /** Elements written out, with gaps[i] slashes before the i-th and the rest after the last. */
  function Text(es: seq<string>, gaps: seq<nat>): string
    requires |gaps| == |es| + 1
  {
    if es == [] then Slashes(gaps[0]) else Slashes(gaps[0]) + es[0] + Text(es[1..], gaps[1..])
  }

  /** At least one slash between two elements. */
  predicate Separated(es: seq<string>, gaps: seq<nat>) {
    |gaps| == |es| + 1 && forall i :: 0 < i < |es| ==> gaps[i] > 0
  }

  lemma {:induction false} SlashesSkipped(n: nat, p: string)
    ensures Elements(Slashes(n) + p) == Elements(p)
  {
    if n == 0 {
      assert Slashes(n) + p == p;
    } else {
      var s := Slashes(n) + p;
      assert s[1..] == Slashes(n - 1) + p;
      SlashesSkipped(n - 1, p);
    }
  }

  lemma {:induction false} ElemLenOf(e: string, p: string)
    requires '/' !in e && (p == "" || p[0] == '/')
    ensures ElemLen(e + p) == |e|
  {
    assert forall i :: 0 <= i < |e| ==> (e + p)[i] == e[i] && e[i] in e;
    assert p != "" ==> (e + p)[|e|] == '/';
  }

  /** Splitting undoes writing out, whatever the slashes. */
  lemma {:induction false} SplitsText(es: seq<string>, gaps: seq<nat>)
    requires Separated(es, gaps) && forall i :: 0 <= i < |es| ==> Plain(es[i])
    ensures Elements(Text(es, gaps)) == es
    decreases |es|
  {
    if es == [] {
      SlashesSkipped(gaps[0], "");
      assert Slashes(gaps[0]) + "" == Slashes(gaps[0]);
    } else {
      var rest := Text(es[1..], gaps[1..]);
      SplitsText(es[1..], gaps[1..]);
      SlashesSkipped(gaps[0], es[0] + rest);
      assert Slashes(gaps[0]) + es[0] + rest == Slashes(gaps[0]) + (es[0] + rest);
      TextStarts(es[1..], gaps[1..]);
      ElemLenOf(es[0], rest);
      assert (es[0] + rest)[0] == es[0][0] && es[0][0] in es[0];
      assert (es[0] + rest)[..|es[0]|] == es[0] && (es[0] + rest)[|es[0]|..] == rest;
    }
  }

  lemma TextStarts(es: seq<string>, gaps: seq<nat>)
    requires |gaps| == |es| + 1 && (es == [] || gaps[0] > 0)
    ensures Text(es, gaps) == "" || Text(es, gaps)[0] == '/'
  {
  }

  /** The slashes of a path. */
  function Gaps(p: string): (g: seq<nat>)
    ensures |g| == |Elements(p)| + 1
    decreases |p|
  {
    if p == "" then [0]
    else if p[0] == '/' then var g := Gaps(p[1..]); g[0 := g[0] + 1]
    else [0] + Gaps(p[ElemLen(p)..])
  }

  /** Every path is its elements written out. */
  predicate WrittenOut(p: string, es: seq<string>, gaps: seq<nat>) {
    && Separated(es, gaps) && Text(es, gaps) == p
    && (forall i :: 0 <= i < |es| ==> Plain(es[i]))
    && (p != "" && p[0] == '/' ==> gaps[0] > 0)
  }

  lemma SlashFirst(p: string, es: seq<string>, gaps: seq<nat>)
    requires p != "" && p[0] == '/' && WrittenOut(p[1..], es, gaps)
    ensures WrittenOut(p, es, gaps[0 := gaps[0] + 1])
  {
    var g := gaps[0 := gaps[0] + 1];
    assert Slashes(gaps[0] + 1) == "/" + Slashes(gaps[0]);
    assert p == "/" + p[1..];
    assert g[1..] == gaps[1..];
    if es != [] {
      var t := es[0] + Text(es[1..], gaps[1..]);
      assert p[1..] == Slashes(gaps[0]) + t;
      assert Text(es, g) == Slashes(gaps[0] + 1) + t;
    }
  }

  lemma ElementFirst(e: string, rest: string, es: seq<string>, gaps: seq<nat>)
    requires Plain(e) && (rest == "" || rest[0] == '/') && WrittenOut(rest, es, gaps) && (rest == "" ==> es == [])
    ensures WrittenOut(e + rest, [e] + es, [0] + gaps)
  {
    assert ([e] + es)[1..] == es && ([0] + gaps)[1..] == gaps;
    assert Slashes(0) + e + rest == e + rest;
    assert (e + rest)[0] in e;
  }

  lemma {:induction false} EveryPathIsText(p: string)
    ensures WrittenOut(p, Elements(p), Gaps(p))
    decreases |p|
  {
    hide WrittenOut;
    if p == "" {
      NothingWritten();
    } else if p[0] == '/' {
      EveryPathIsText(p[1..]);
      SlashFirst(p, Elements(p[1..]), Gaps(p[1..]));
    } else {
      var n := ElemLen(p);
      EveryPathIsText(p[n..]);
      assert p[..n] + p[n..] == p;
      ElementFirst(p[..n], p[n..], Elements(p[n..]), Gaps(p[n..]));
    }
  }

  lemma NothingWritten()
    ensures WrittenOut("", [], [0])
  {
  }

  // ---- skipelem ----

  /** The part of an element that a directory entry can hold. */
  function Trunc(e: string): string { if |e| < DIRSIZ then e else e[..DIRSIZ] }

  lemma SlashStep(path: string, i: nat)
    requires i < |path| && path[i] == '/'
    ensures Elements(path[i..]) == Elements(path[i + 1..])
  {
    assert path[i..][1..] == path[i + 1..];
  }

  lemma CharStep(path: string, i: nat)
    requires i < |path| && path[i] != '/'
    ensures ElemLen(path[i..]) == 1 + ElemLen(path[i + 1..])
  {
    assert path[i..][1..] == path[i + 1..];
  }

  lemma ElemStep(path: string, s: nat, e: nat)
    requires s < e <= |path| && path[s] != '/' && ElemLen(path[s..]) == e - s
    ensures Elements(path[s..]) == [path[s..e]] + Elements(path[e..])
  {
    assert path[s..][..e - s] == path[s..e] && path[s..][e - s..] == path[e..];
  }

  lemma AtEnd(path: string, i: nat)
    requires i <= |path| && (i < |path| ==> path[i] != '/')
    ensures Elements(path[i..]) == [] <==> i == |path|
    ensures i < |path| ==> ElemLen(path[i..]) > 0
  {
  }

  lemma ElemLenAt(path: string, i: nat)
    requires i <= |path| && (i < |path| ==> path[i] == '/')
    ensures ElemLen(path[i..]) == 0
  {
  }

  /** skipelem from `pos`: the first element, cut to DIRSIZ characters, and where the second one starts. */
  method Skipelem(path: string, pos: nat, buffer: string) returns (ok: bool, next: nat, name: string)
    requires pos <= |path| && NUL !in path && |buffer| == DIRSIZ
    ensures next <= |path| && |name| == DIRSIZ
    ensures ok <==> Elements(path[pos..]) != []
    ensures ok ==> Key(name, DIRSIZ) == Trunc(Elements(path[pos..])[0]) && Elements(path[next..]) == Elements(path[pos..])[1..]
    ensures ok ==> (next == |path| <==> |Elements(path[pos..])| == 1) && pos < next
  {
    hide Elements, ElemLen, Key, Trunc;
    next, name := pos, buffer;
    while next < |path| && path[next] == '/'
      invariant pos <= next <= |path| && Elements(path[next..]) == Elements(path[pos..])
    {
      SlashStep(path, next);
      next := next + 1;
    }
    AtEnd(path, next);
    if next == |path| {
      return false, next, buffer;
    }
    var s := next;
    while next < |path| && path[next] != '/'
      invariant s <= next <= |path| && ElemLen(path[s..]) == next - s + ElemLen(path[next..])
    {
      CharStep(path, next);
      next := next + 1;
    }
    ElemLenAt(path, next);
    ElemStep(path, s, next);
    ghost var rest := Elements(path[next..]);
    var len := next - s;
    name := if len >= DIRSIZ then path[s..s + DIRSIZ] else path[s..next] + [NUL] + buffer[len + 1..];
    NameKey(path, s, next, name);
    while next < |path| && path[next] == '/'
      invariant s < next <= |path| && Elements(path[next..]) == rest
    {
      SlashStep(path, next);
      next := next + 1;
    }
    AtEnd(path, next);
    return true, next, name;
  }

  /** The buffer holds the element, or as much of it as fits. */
  lemma NameKey(path: string, s: nat, e: nat, name: string)
    requires s < e <= |path| && NUL !in path && |name| == DIRSIZ
    requires if e - s >= DIRSIZ then name == path[s..s + DIRSIZ] else name[..e - s] == path[s..e] && name[e - s] == NUL
    ensures Key(name, DIRSIZ) == Trunc(path[s..e])
  {
    var n := if e - s >= DIRSIZ then DIRSIZ else e - s;
    assert name[..n] == path[s..s + n];
    forall j | 0 <= j < n ensures name[j] != NUL {
      assert name[..n][j] == path[s + j] && path[s + j] in path;
    }
    EndIs(name, DIRSIZ, n);
  }

  // ---- namex ----

  const PANIC := -2    // ilock on an inode that has been freed

  /** The inode that a list of elements leads to, or NONE, or PANIC.  Each lookup sees the tree as it is at that moment:
      `trees` has one for every element, because a directory is locked only while it is searched. */
  function Resolve(trees: seq<Links.Fs>, d: int, es: seq<string>): int
    requires |trees| == |es|
    decreases |es|
  {
    if es == [] || d < 0 then d
    else if !Links.Exists(trees[0], d) then PANIC
    else if !Links.IsDir(trees[0], d) then Links.NONE
    else Resolve(trees[1..], Links.Ent(trees[0], d, Trunc(es[0])), es[1..])
  }

  /** The directory in which the last element is to be looked up, or NONE, or PANIC. */
  function ResolveParent(trees: seq<Links.Fs>, d: int, es: seq<string>): int
    requires |trees| == |es|
    decreases |es|
  {
    if es == [] || d == Links.NONE then Links.NONE
    else if !Links.Exists(trees[0], d) then PANIC
    else if !Links.IsDir(trees[0], d) then Links.NONE
    else if |es| == 1 then d
    else ResolveParent(trees[1..], Links.Ent(trees[0], d, Trunc(es[0])), es[1..])
  }

  /** Looking up a path is looking up its last element in its parent. */
  lemma {:induction false} ParentThenLast(trees: seq<Links.Fs>, d: int, es: seq<string>)
    requires |trees| == |es| > 0 && d >= 0
    ensures Resolve(trees, d, es) ==
              var p := ResolveParent(trees, d, es);
              if p < 0 then p else Links.Ent(trees[|es| - 1], p, Trunc(es[|es| - 1]))
    decreases |es|
  {
    if |es| == 1 {
      assert es[1..] == [];
    } else if Links.IsDir(trees[0], d) {
      var n := Links.Ent(trees[0], d, Trunc(es[0]));
      if n != Links.NONE {
        ParentThenLast(trees[1..], n, es[1..]);
      }
    }
  }

  function StartOf(cwd: nat, path: string): nat { if path != "" && path[0] == '/' then Links.ROOT else cwd }

  /** namex: the walk that the path's elements spell, from the root or the working directory. */
  method Namex(trees: seq<Links.Fs>, cwd: nat, path: string, parent: bool) returns (r: int, name: string)
    requires NUL !in path && |trees| == |Elements(path)|
    ensures !parent ==> r == Resolve(trees, StartOf(cwd, path), Elements(path))
    ensures parent ==> r == ResolveParent(trees, StartOf(cwd, path), Elements(path))
    ensures |name| == DIRSIZ
    ensures parent && r >= 0 ==>
              Elements(path) != [] && Key(name, DIRSIZ) == Trunc(Elements(path)[|Elements(path)| - 1])
  {
    hide Elements, Key, Trunc;
    name := seq(DIRSIZ, _ => NUL);
    var ip := StartOf(cwd, path);
    var pos := 0;
    var k := 0;
    ghost var es := Elements(path);
    assert path[0..] == path && es[0..] == es && trees[0..] == trees;
    while true
      invariant pos <= |path| && k <= |es| && ip >= 0 && |name| == DIRSIZ && Elements(path[pos..]) == es[k..]
      invariant Resolve(trees[k..], ip, es[k..]) == Resolve(trees, StartOf(cwd, path), es)
      invariant parent ==> ResolveParent(trees[k..], ip, es[k..]) == ResolveParent(trees, StartOf(cwd, path), es)
      decreases |path| - pos
    {
      var ok, next, elem := Skipelem(path, pos, name);
      if !ok {
        return if parent then Links.NONE else ip, name;
      }
      name := elem;
      Shifted(es, k);
      Shifted(trees, k);
      var f := trees[k];                      // what the directory holds while it is locked
      if !Links.Exists(f, ip) {
        return PANIC, name;
      }
      if !Links.IsDir(f, ip) {
        return Links.NONE, name;
      }
      if parent && next == |path| {
        return ip, name;
      }
      var n := Links.Ent(f, ip, Key(name, DIRSIZ));
      if n == Links.NONE {
        return Links.NONE, name;
      }
      ip, pos, k := n, next, k + 1;
    }
  }

  lemma Shifted<T>(es: seq<T>, k: nat)
    requires k < |es|
    ensures es[k..][0] == es[k] && es[k..][1..] == es[k + 1..]
  {
  }
}
