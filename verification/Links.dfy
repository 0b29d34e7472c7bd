/** Link counts and the shape of the directory tree, over the sections of the system calls that inode locks make atomic.

    A node is an allocated inode.  A directory is live while its link count is positive; entries of
    directories that are no longer live do not count. */
module Links {
  import opened Params
  import opened Sets

  const ROOT: nat := 1
  const NONE := -1

  type Name = string

  datatype Kind = Folder | Regular | Device

  datatype Node = Node(kind: Kind, nlink: int, entries: map<Name, nat>)

  type Fs = map<nat, Node>

  predicate Proper(n: Name) { n != DOT && n != DOTDOT }

  predicate Exists(f: Fs, i: int) { i >= 0 && i in f }

  predicate IsDir(f: Fs, d: int) { d >= 0 && d in f && f[d].kind.Folder? }

  predicate Live(f: Fs, d: int) { d >= 0 && d in f && f[d].kind.Folder? && f[d].nlink > 0 }

  /** What name `n` means in directory `d`, or NONE. */
  function Ent(f: Fs, d: int, n: Name): int {
    if d >= 0 && d in f && n in f[d].entries then f[d].entries[n] else NONE
  }

  function Parent(f: Fs, d: int): int { Ent(f, d, DOTDOT) }

  function Nlink(f: Fs, i: int): int { if i >= 0 && i in f then f[i].nlink else 0 }

  /** The entries that name inode `i`, other than ".", in live directories. */
  ghost function Refs(f: Fs, i: int): set<(nat, Name)> {
    set d, n | d in f && Live(f, d) && n in f[d].entries && n != DOT && f[d].entries[n] == i :: (d, n)
  }

  // ---- The invariant ----

  /** Each inode's link count is the number of entries that name it, and of links being made to it. */
  ghost predicate CountInv(f: Fs, held: multiset<nat>) {
    forall i: nat :: i in f ==> Nlink(f, i) == |Refs(f, i)| + held[i]
  }

  /** Links are made only to allocated inodes that are not directories. */
  ghost predicate HeldInv(f: Fs, held: multiset<nat>) {
    forall i: nat :: held[i] > 0 ==> Exists(f, i) && !IsDir(f, i)
  }

  /** Directories have "." and "..", those no longer live have nothing else, and entries of live
      directories name allocated inodes. */
  ghost predicate EntryInv(f: Fs) {
    && (forall d :: IsDir(f, d) ==> Ent(f, d, DOT) == d && Parent(f, d) != NONE)
    && (forall d, n :: IsDir(f, d) && !Live(f, d) && Proper(n) ==> Ent(f, d, n) == NONE)
    && (forall d, n :: Live(f, d) && Ent(f, d, n) != NONE ==> Exists(f, Ent(f, d, n)))
  }

  /** Some proper entry of `p` names `d`. */
  ghost predicate Named(f: Fs, p: int, d: int) {
    exists n :: Proper(n) && Ent(f, p, n) == d
  }

  function Rank(depth: map<int, nat>, d: int): nat { if d in depth then depth[d] else 0 }

  /** Every live directory but ROOT is named in its live parent, which is closer to the root. */
  ghost predicate UpInv(f: Fs, depth: map<int, nat>) {
    && Live(f, ROOT) && Parent(f, ROOT) == ROOT
    && (forall d {:trigger Parent(f, d)} :: Live(f, d) && d != ROOT ==>
          && Live(f, Parent(f, d)) && Named(f, Parent(f, d), d)
          && Rank(depth, Parent(f, d)) < Rank(depth, d))
  }

  /** A live directory has at most one proper name, in its parent; ROOT has none. */
  ghost predicate DownInv(f: Fs) {
    && (forall p, n {:trigger Proper(n), Ent(f, p, n)} :: Live(f, p) && Proper(n) && Live(f, Ent(f, p, n)) ==>
          Ent(f, p, n) != ROOT && Parent(f, Ent(f, p, n)) == p)
    && (forall p, n, m {:trigger Proper(n), Proper(m), Ent(f, p, n), Ent(f, p, m)} ::
          Live(f, p) && Proper(n) && Proper(m) && Live(f, Ent(f, p, n)) && Ent(f, p, m) == Ent(f, p, n) ==> n == m)
  }

  /** Live directories form a tree with root ROOT. */
  ghost predicate TreeInv(f: Fs, depth: map<int, nat>) { UpInv(f, depth) && DownInv(f) }

  ghost predicate Inv(f: Fs, held: multiset<nat>, depth: map<int, nat>) {
    CountInv(f, held) && HeldInv(f, held) && EntryInv(f) && TreeInv(f, depth)
  }

  // ---- The system calls ----

  function AddEntry(f: Fs, d: nat, n: Name, i: nat): Fs
    requires d in f
  {
    f[d := f[d].(entries := f[d].entries[n := i])]
  }

  function AddLinks(f: Fs, i: nat, k: int): Fs
    requires i in f
  {
    f[i := f[i].(nlink := f[i].nlink + k)]
  }

  function DropEntry(f: Fs, d: nat, n: Name): Fs
    requires d in f
  {
    f[d := f[d].(entries := f[d].entries - {n})]
  }

  function DotEntries(i: nat, parent: nat): map<Name, nat> { map[DOT := i, DOTDOT := parent] }

  /** create of a file or device: a new inode with one link, then its name. */
  function CreateFile(f: Fs, d: nat, n: Name, i: nat, dev: bool): Fs
    requires d in f && i !in f
  {
    AddEntry(f[i := Node(if dev then Device else Regular, 1, map[])], d, n, i)
  }

  /** create of a directory: the parent gains the link of "..". */
  function CreateDir(f: Fs, d: nat, n: Name, i: nat): Fs
    requires d in f && i !in f
  {
    AddEntry(AddLinks(f[i := Node(Folder, 1, DotEntries(i, d))], d, 1), d, n, i)
  }

  ghost predicate Empty(f: Fs, i: int) { forall n :: Proper(n) ==> Ent(f, i, n) == NONE }

  /** sys_unlink of name `n` in `d`; removing a directory takes back the link of its "..". */
  function Unlink(f: Fs, d: nat, n: Name): Fs
    requires d in f && n in f[d].entries && f[d].entries[n] in f
  {
    var i := f[d].entries[n];
    var g := DropEntry(f, d, n);
    AddLinks(if f[i].kind.Folder? then AddLinks(g, d, -1) else g, i, -1)
  }

  /** iput of the last reference to an inode without links frees it. */
  function FreeInode(f: Fs, i: nat): Fs { f - {i} }

  /** The inodes, and the files whose count sys_link has raised but that it has not named yet. */
  datatype State = State(f: Fs, held: multiset<nat>)

  datatype Step =
    | DoCreateFile(d: nat, n: Name, i: nat, dev: bool)
    | DoCreateDir(d: nat, n: Name, i: nat)
    | DoLinkCount(i: nat)
    | DoLinkName(i: nat, d: nat, n: Name)
    | DoLinkUndo(i: nat)
    | DoUnlink(d: nat, n: Name)
    | DoFree(i: nat)

  /** The checks of the system calls; calls that fail them change nothing. */
  ghost predicate Enabled(s: State, step: Step) {
    match step
    case DoCreateFile(d, n, i, dev) => IsDir(s.f, d) && Ent(s.f, d, n) == NONE && i !in s.f
    case DoCreateDir(d, n, i) => IsDir(s.f, d) && Ent(s.f, d, n) == NONE && i !in s.f
    case DoLinkCount(i) => i in s.f && !s.f[i].kind.Folder?
    case DoLinkName(i, d, n) => s.held[i] > 0 && IsDir(s.f, d) && Ent(s.f, d, n) == NONE
    case DoLinkUndo(i) => s.held[i] > 0 && i in s.f
    case DoUnlink(d, n) =>
      && IsDir(s.f, d) && Proper(n) && Exists(s.f, Ent(s.f, d, n))
      && (IsDir(s.f, Ent(s.f, d, n)) ==> Empty(s.f, Ent(s.f, d, n)))
    case DoFree(i) => i in s.f && s.f[i].nlink == 0
  }

  ghost function Apply(s: State, step: Step): State
    requires Enabled(s, step)
  {
    match step
    case DoCreateFile(d, n, i, dev) => State(CreateFile(s.f, d, n, i, dev), s.held)
    case DoCreateDir(d, n, i) => State(CreateDir(s.f, d, n, i), s.held)
    case DoLinkCount(i) => State(AddLinks(s.f, i, 1), s.held + multiset{i})
    case DoLinkName(i, d, n) => State(AddEntry(s.f, d, n, i), s.held - multiset{i})
    case DoLinkUndo(i) => State(AddLinks(s.f, i, -1), s.held - multiset{i})
    case DoUnlink(d, n) => State(Unlink(s.f, d, n), s.held)
    case DoFree(i) => State(FreeInode(s.f, i), s.held)
  }

  lemma Basics(f: Fs)
    ensures !Exists(f, NONE)
    ensures forall x: int :: Live(f, x) ==> IsDir(f, x)
    ensures forall x: int :: IsDir(f, x) ==> Exists(f, x)
    ensures forall x: int :: Exists(f, x) ==> x >= 0
  {
  }

  // ---- Counting references ----

  /** Entry `n` of `d` counts towards the links of `i`. */
  predicate Refers(f: Fs, d: int, n: Name, i: int) { Live(f, d) && n != DOT && Ent(f, d, n) == i }

  lemma RefsAre(f: Fs, i: nat, d: nat, n: Name)
    ensures (d, n) in Refs(f, i) <==> Refers(f, d, n, i)
  {
  }

  lemma NoRefs(f: Fs, i: nat)
    requires forall d: nat, n :: !Refers(f, d, n, i)
    ensures |Refs(f, i)| == 0
  {
    forall d: nat, n ensures (d, n) !in Refs(f, i) {
      RefsAre(f, i, d, n);
    }
    hide Refs;
    assert Refs(f, i) == {};
  }

  lemma RefsSame(f: Fs, g: Fs, i: nat)
    requires forall d: nat, n :: Refers(g, d, n, i) <==> Refers(f, d, n, i)
    ensures |Refs(g, i)| == |Refs(f, i)|
  {
    forall d: nat, n ensures (d, n) in Refs(g, i) <==> (d, n) in Refs(f, i) {
      RefsAre(f, i, d, n);
      RefsAre(g, i, d, n);
    }
    hide Refs;
    assert Refs(g, i) == Refs(f, i);
  }

  lemma RefsGain(f: Fs, g: Fs, i: nat, d: nat, n: Name)
    requires forall x: nat, m :: Refers(g, x, m, i) <==> Refers(f, x, m, i) || (x == d && m == n)
    requires !Refers(f, d, n, i)
    ensures |Refs(g, i)| == |Refs(f, i)| + 1
  {
    forall x: nat, m ensures (x, m) in Refs(g, i) <==> (x, m) in Refs(f, i) + {(d, n)} {
      RefsAre(f, i, x, m);
      RefsAre(g, i, x, m);
    }
    RefsAre(f, i, d, n);
    hide Refs;
    assert Refs(g, i) == Refs(f, i) + {(d, n)};
  }

  // ---- Consequences of the invariant ----

  lemma NoRefsOutside(f: Fs, i: nat)
    requires EntryInv(f) && i !in f
    ensures forall d: int, n :: Live(f, d) ==> Ent(f, d, n) != i
    ensures !Live(f, i)
  {
  }

  lemma NewNameIsProper(f: Fs, d: int, n: Name)
    requires EntryInv(f) && IsDir(f, d) && Ent(f, d, n) == NONE
    ensures Proper(n)
  {
  }

  // ---- create ----

  lemma CreateFileView(f: Fs, d: nat, n: Name, i: nat, dev: bool)
    requires Live(f, d) && i !in f
    ensures var g := CreateFile(f, d, n, i, dev);
            && (forall x: int, m :: Ent(g, x, m) == if x == d && m == n then i else if x == i then NONE else Ent(f, x, m))
            && (forall x: int :: Live(g, x) <==> Live(f, x))
            && (forall x: int :: IsDir(g, x) <==> IsDir(f, x))
            && (forall x: int :: Nlink(g, x) == if x == i then 1 else Nlink(f, x))
            && (forall x: nat :: x in g <==> x in f || x == i)
  {
  }

  lemma CreateFileCounts(f: Fs, held: multiset<nat>, d: nat, n: Name, i: nat, dev: bool)
    requires CountInv(f, held) && EntryInv(f) && Live(f, d) && Ent(f, d, n) == NONE && i !in f
    requires held[i] == 0
    ensures CountInv(CreateFile(f, d, n, i, dev), held)
  {
    var g := CreateFile(f, d, n, i, dev);
    CreateFileView(f, d, n, i, dev);
    NoRefsOutside(f, i);
    NewNameIsProper(f, d, n);
    hide CreateFile, Live, Ent, Refs, EntryInv, Nlink;
    forall j: nat | j in g ensures Nlink(g, j) == |Refs(g, j)| + held[j] {
      if j == i {
        NoRefs(f, i);
        RefsGain(f, g, i, d, n);
      } else {
        RefsSame(f, g, j);
      }
    }
  }

  lemma CreateFileTree(f: Fs, d: nat, n: Name, i: nat, depth: map<int, nat>, dev: bool)
    requires EntryInv(f) && TreeInv(f, depth) && Live(f, d) && Ent(f, d, n) == NONE && i !in f
    ensures var g := CreateFile(f, d, n, i, dev); EntryInv(g) && TreeInv(g, depth)
  {
    var g := CreateFile(f, d, n, i, dev);
    CreateFileView(f, d, n, i, dev);
    NoRefsOutside(f, i);
    NewNameIsProper(f, d, n);
    assert !IsDir(f, i);
    hide CreateFile, Live, Ent, IsDir;
  }

  lemma CreateDirView(f: Fs, d: nat, n: Name, i: nat)
    requires Live(f, d) && i !in f
    ensures var g := CreateDir(f, d, n, i);
            && (forall x: int, m :: Ent(g, x, m) ==
                  if x == d && m == n then i
                  else if x == i then (if m == DOT then i else if m == DOTDOT then d else NONE)
                  else Ent(f, x, m))
            && (forall x: int :: Live(g, x) <==> Live(f, x) || x == i)
            && (forall x: int :: IsDir(g, x) <==> IsDir(f, x) || x == i)
            && (forall x: int :: Nlink(g, x) == if x == i then 1 else if x == d then Nlink(f, d) + 1 else Nlink(f, x))
            && (forall x: nat :: x in g <==> x in f || x == i)
  {
  }

  lemma CreateDirCounts(f: Fs, held: multiset<nat>, d: nat, n: Name, i: nat)
    requires CountInv(f, held) && EntryInv(f) && Live(f, d) && Ent(f, d, n) == NONE && i !in f
    requires held[i] == 0
    ensures CountInv(CreateDir(f, d, n, i), held)
  {
    var g := CreateDir(f, d, n, i);
    CreateDirView(f, d, n, i);
    NoRefsOutside(f, i);
    NewNameIsProper(f, d, n);
    hide CreateDir, Live, Ent, Refs, EntryInv, Nlink;
    forall j: nat | j in g ensures Nlink(g, j) == |Refs(g, j)| + held[j] {
      if j == i {
        NoRefs(f, i);
        RefsGain(f, g, i, d, n);
      } else if j == d {
        RefsGain(f, g, d, i, DOTDOT);
      } else {
        RefsSame(f, g, j);
      }
    }
  }

  lemma CreateDirEntries(f: Fs, d: nat, n: Name, i: nat)
    requires EntryInv(f) && Live(f, d) && Ent(f, d, n) == NONE && i !in f
    ensures EntryInv(CreateDir(f, d, n, i))
  {
    CreateDirView(f, d, n, i);
    NewNameIsProper(f, d, n);
    NoRefsOutside(f, i);
    assert IsDir(f, d) && d in f;
    hide CreateDir, Live, Ent, IsDir;
  }

  lemma CreateDirUp(f: Fs, d: nat, n: Name, i: nat, depth: map<int, nat>)
    requires EntryInv(f) && UpInv(f, depth) && Live(f, d) && Ent(f, d, n) == NONE && i !in f
    ensures UpInv(CreateDir(f, d, n, i), depth[i := Rank(depth, d) + 1])
  {
    var g := CreateDir(f, d, n, i);
    CreateDirView(f, d, n, i);
    NoRefsOutside(f, i);
    NewNameIsProper(f, d, n);
    hide CreateDir, Live, Ent, EntryInv;
    assert Named(g, d, i);
    forall x: int | Live(f, x) && x != ROOT ensures Parent(g, x) == Parent(f, x) && Named(g, Parent(g, x), x) {
      assert Named(f, Parent(f, x), x);
      var m :| Proper(m) && Ent(f, Parent(f, x), m) == x;
      assert Ent(g, Parent(f, x), m) == x;
    }
  }

  lemma CreateDirDown(f: Fs, d: nat, n: Name, i: nat, depth: map<int, nat>)
    requires EntryInv(f) && TreeInv(f, depth) && Live(f, d) && Ent(f, d, n) == NONE && i !in f
    ensures DownInv(CreateDir(f, d, n, i))
  {
    var g := CreateDir(f, d, n, i);
    CreateDirView(f, d, n, i);
    NoRefsOutside(f, i);
    NewNameIsProper(f, d, n);
    hide CreateDir, Live, Ent, EntryInv;
  }

  // ---- sys_link ----

  lemma CountView(f: Fs, i: nat, k: int)
    requires i in f && !f[i].kind.Folder?
    ensures var g := AddLinks(f, i, k);
            && (forall x: int, m :: Ent(g, x, m) == Ent(f, x, m))
            && (forall x: int :: Live(g, x) <==> Live(f, x))
            && (forall x: int :: IsDir(g, x) <==> IsDir(f, x))
            && (forall x: int :: Nlink(g, x) == if x == i then Nlink(f, i) + k else Nlink(f, x))
            && (forall x: nat :: x in g <==> x in f)
            && (forall x: int :: Exists(g, x) <==> Exists(f, x))
  {
  }

  /** Raising or taking back the count of a file that sys_link holds. */
  lemma CountCounts(f: Fs, held: multiset<nat>, i: nat, k: int, held': multiset<nat>)
    requires CountInv(f, held) && i in f && !f[i].kind.Folder?
    requires held'[i] == held[i] + k && forall j: nat :: j != i ==> held'[j] == held[j]
    ensures CountInv(AddLinks(f, i, k), held')
  {
    hide AddLinks, Live, Ent, Refs, Nlink;
    var g := AddLinks(f, i, k);
    CountView(f, i, k);
    forall j: nat | j in g ensures Nlink(g, j) == |Refs(g, j)| + held'[j] {
      RefsSame(f, g, j);
    }
  }

  lemma CountStep(f: Fs, held: multiset<nat>, i: nat, k: int, held': multiset<nat>, depth: map<int, nat>)
    requires Inv(f, held, depth) && i in f && !f[i].kind.Folder?
    requires held'[i] == held[i] + k && forall j: nat :: j != i ==> held'[j] == held[j]
    ensures Inv(AddLinks(f, i, k), held', depth)
  {
    CountCounts(f, held, i, k, held');
    hide AddLinks, CountInv, EntryInv, TreeInv, Live, Ent, Nlink;
    CountView(f, i, k);
    CountTree(f, AddLinks(f, i, k), depth);
  }

  lemma CountTree(f: Fs, g: Fs, depth: map<int, nat>)
    requires EntryInv(f) && TreeInv(f, depth)
    requires forall x: int, m :: Ent(g, x, m) == Ent(f, x, m)
    requires forall x: int :: Live(g, x) <==> Live(f, x)
    requires forall x: int :: IsDir(g, x) <==> IsDir(f, x)
    requires forall x: int :: Exists(g, x) <==> Exists(f, x)
    ensures EntryInv(g) && TreeInv(g, depth)
  {
    hide Live, IsDir, Ent, Exists;
    forall x: int | Live(f, x) && x != ROOT ensures Parent(g, x) == Parent(f, x) && Named(g, Parent(g, x), x) {
      assert Named(f, Parent(f, x), x);
      var m :| Proper(m) && Ent(f, Parent(f, x), m) == x;
      assert Ent(g, Parent(f, x), m) == x;
    }
  }

  lemma NameView(f: Fs, i: nat, d: nat, n: Name)
    requires Live(f, d)
    ensures var g := AddEntry(f, d, n, i);
            && (forall x: int, m :: Ent(g, x, m) == if x == d && m == n then i else Ent(f, x, m))
            && (forall x: int :: Live(g, x) <==> Live(f, x))
            && (forall x: int :: IsDir(g, x) <==> IsDir(f, x))
            && (forall x: int :: Nlink(g, x) == Nlink(f, x))
            && (forall x: nat :: x in g <==> x in f)
  {
  }

  lemma NameCounts(f: Fs, held: multiset<nat>, i: nat, d: nat, n: Name)
    requires CountInv(f, held) && EntryInv(f) && Live(f, d) && Ent(f, d, n) == NONE && held[i] > 0
    ensures CountInv(AddEntry(f, d, n, i), held - multiset{i})
  {
    var g := AddEntry(f, d, n, i);
    NameView(f, i, d, n);
    NewNameIsProper(f, d, n);
    hide AddEntry, Live, Ent, Refs, EntryInv, Nlink;
    forall j: nat | j in g ensures Nlink(g, j) == |Refs(g, j)| + (held - multiset{i})[j] {
      if j == i {
        RefsGain(f, g, i, d, n);
      } else {
        RefsSame(f, g, j);
      }
    }
  }

  lemma NameTree(f: Fs, i: nat, d: nat, n: Name, depth: map<int, nat>)
    requires EntryInv(f) && TreeInv(f, depth) && Live(f, d) && Ent(f, d, n) == NONE && i in f && !f[i].kind.Folder?
    ensures var g := AddEntry(f, d, n, i); EntryInv(g) && TreeInv(g, depth)
  {
    NameView(f, i, d, n);
    NewNameIsProper(f, d, n);
    assert !Live(f, i);
    hide AddEntry, Live, IsDir, Ent;
  }

  // ---- sys_unlink ----

  lemma RefsMember(f: Fs, i: nat, d: nat, n: Name)
    requires Refers(f, d, n, i)
    ensures |Refs(f, i)| >= 1
  {
    RefsAre(f, i, d, n);
    hide Refs;
    SubsetSize({(d, n)}, Refs(f, i));
  }

  /** The inode that unlink finds always has a link: the "nlink < 1" panic is unreachable. */
  lemma UnlinkFindsLinked(f: Fs, held: multiset<nat>, d: nat, n: Name)
    requires CountInv(f, held) && EntryInv(f) && IsDir(f, d) && Proper(n) && Ent(f, d, n) != NONE
    ensures Live(f, d) && Exists(f, Ent(f, d, n)) && Nlink(f, Ent(f, d, n)) >= 1
  {
    assert Live(f, d);
    var i: nat := Ent(f, d, n);
    hide Refs;
    RefsMember(f, i, d, n);
  }

  /** An empty directory is named once, by the entry in its parent. */
  lemma EmptyRefs(f: Fs, i: nat, depth: map<int, nat>)
    requires TreeInv(f, depth) && Live(f, i) && Empty(f, i)
    ensures forall x: int :: Live(f, x) && x != ROOT ==> Parent(f, x) != i
  {
    forall x: int | Live(f, x) && x != ROOT ensures Parent(f, x) != i {
      assert Named(f, Parent(f, x), x);
    }
  }

  lemma EmptyNamedOnce(f: Fs, d: nat, n: Name, i: nat, depth: map<int, nat>)
    requires EntryInv(f) && TreeInv(f, depth)
    requires Live(f, d) && Proper(n) && Ent(f, d, n) == i && Live(f, i) && Empty(f, i)
    ensures forall x: nat, m :: Refers(f, x, m, i) <==> x == d && m == n
    ensures i != d && i != ROOT && Parent(f, i) == d
  {
    hide Live, Ent, Refs, Nlink, IsDir, Exists;
    EmptyRefs(f, i, depth);
    assert Parent(f, i) == d && i != ROOT;
    forall x: nat, m | Refers(f, x, m, i) ensures x == d && m == n {
      assert m == DOTDOT ==> Parent(f, x) == i;
      assert Proper(m);
    }
  }

  /** The parent of another directory has at least two references. */
  lemma ParentRefs(f: Fs, d: nat, i: nat, depth: map<int, nat>)
    requires TreeInv(f, depth) && Live(f, d) && Live(f, i) && Parent(f, i) == d && i != d && i != ROOT
    ensures |Refs(f, d)| >= 2
  {
    var x, m := if d == ROOT then ROOT else Parent(f, d), DOTDOT;
    if d != ROOT {
      assert Named(f, Parent(f, d), d);
      m :| Proper(m) && Ent(f, Parent(f, d), m) == d;
    }
    assert Refers(f, x, m, d) && Refers(f, i, DOTDOT, d);
    assert x >= 0;
    RefsAre(f, d, x, m);
    RefsAre(f, d, i, DOTDOT);
    assert (x, m) != (i, DOTDOT);
    hide Refs, Live, Ent;
    assert {((x as nat), m), (i, DOTDOT)} <= Refs(f, d);
    SubsetSize({((x as nat), m), (i, DOTDOT)}, Refs(f, d));
  }

  lemma UnlinkFileView(f: Fs, d: nat, n: Name, i: nat)
    requires Live(f, d) && Proper(n) && Ent(f, d, n) == i && i in f && !f[i].kind.Folder?
    ensures var g := Unlink(f, d, n);
            && (forall x: int, m :: Ent(g, x, m) == if x == d && m == n then NONE else Ent(f, x, m))
            && (forall x: int :: Live(g, x) <==> Live(f, x))
            && (forall x: int :: IsDir(g, x) <==> IsDir(f, x))
            && (forall x: int :: Nlink(g, x) == if x == i then Nlink(f, i) - 1 else Nlink(f, x))
            && (forall x: nat :: x in g <==> x in f)
  {
  }

  lemma UnlinkFileCounts(f: Fs, held: multiset<nat>, d: nat, n: Name, i: nat)
    requires CountInv(f, held) && EntryInv(f) && Live(f, d) && Proper(n) && Ent(f, d, n) == i && i in f && !f[i].kind.Folder?
    ensures CountInv(Unlink(f, d, n), held)
  {
    var g := Unlink(f, d, n);
    UnlinkFileView(f, d, n, i);
    hide Unlink, Live, Ent, Refs, EntryInv, Nlink;
    forall j: nat | j in g ensures Nlink(g, j) == |Refs(g, j)| + held[j] {
      if j == i {
        RefsGain(g, f, i, d, n);
      } else {
        RefsSame(f, g, j);
      }
    }
  }

  lemma UnlinkFileTree(f: Fs, d: nat, n: Name, i: nat, depth: map<int, nat>)
    requires EntryInv(f) && TreeInv(f, depth)
    requires Live(f, d) && Proper(n) && Ent(f, d, n) == i && i in f && !f[i].kind.Folder?
    ensures var g := Unlink(f, d, n); EntryInv(g) && TreeInv(g, depth)
  {
    UnlinkFileView(f, d, n, i);
    assert !Live(f, i);
    hide Unlink, Live, IsDir, Ent;
  }

  /** Entry `n` of `d` names the empty live directory `i`. */
  ghost predicate NamesEmpty(f: Fs, d: nat, n: Name, i: nat) {
    Live(f, d) && Proper(n) && Ent(f, d, n) == i && Live(f, i) && Empty(f, i)
  }

  /** What removing directory `i`, entry `n` of `d`, does to every entry and count. */
  ghost predicate Removed(f: Fs, g: Fs, d: nat, n: Name, i: nat) {
    && (forall x: int, m :: Ent(g, x, m) == if x == d && m == n then NONE else Ent(f, x, m))
    && (forall x: int :: Live(g, x) <==> Live(f, x) && x != i)
    && (forall x: int :: IsDir(g, x) <==> IsDir(f, x))
    && (forall x: int :: Nlink(g, x) == if x == i then 0 else if x == d then Nlink(f, d) - 1 else Nlink(f, x))
    && (forall x: nat :: x in g <==> x in f)
    && (forall x: int :: Exists(g, x) <==> Exists(f, x))
  }

  lemma UnlinkDirView(f: Fs, d: nat, n: Name, i: nat)
    requires NamesEmpty(f, d, n, i) && i != d && Nlink(f, i) == 1 && Nlink(f, d) >= 2
    ensures Removed(f, Unlink(f, d, n), d, n, i)
  {
  }

  lemma UnlinkDirRemoves(f: Fs, held: multiset<nat>, d: nat, n: Name, i: nat, depth: map<int, nat>)
    requires Inv(f, held, depth) && NamesEmpty(f, d, n, i)
    ensures i != d && i != ROOT && Parent(f, i) == d && Removed(f, Unlink(f, d, n), d, n, i)
    ensures forall x: nat, m :: Refers(f, x, m, i) <==> x == d && m == n
  {
    EmptyNamedOnce(f, d, n, i, depth);
    ParentRefs(f, d, i, depth);
    var none: Fs := map[];
    NoRefs(none, i);
    RefsGain(none, f, i, d, n);
    UnlinkDirView(f, d, n, i);
  }

  /** The entries that count after removing an empty directory. */
  lemma RemovedRefers(f: Fs, g: Fs, d: nat, n: Name, i: nat)
    requires Removed(f, g, d, n, i) && NamesEmpty(f, d, n, i) && Parent(f, i) == d
    ensures forall x: nat, m, j: nat ::
              Refers(g, x, m, j) <==> Refers(f, x, m, j) && !(x == d && m == n) && !(x == i && m == DOTDOT)
  {
    hide Live, Ent, Nlink;
  }

  lemma RemovedCounts(f: Fs, g: Fs, held: multiset<nat>, d: nat, n: Name, i: nat)
    requires CountInv(f, held) && Removed(f, g, d, n, i) && NamesEmpty(f, d, n, i) && Parent(f, i) == d && i != d
    requires held[i] == 0
    requires forall x: nat, m :: Refers(f, x, m, i) <==> x == d && m == n
    ensures CountInv(g, held)
  {
    hide Live, Ent, Nlink, Refs;
    RemovedRefers(f, g, d, n, i);
    forall j: nat | j in g ensures Nlink(g, j) == |Refs(g, j)| + held[j] {
      if j == i {
        NoRefs(g, i);
      } else if j == d {
        RefsGain(g, f, d, i, DOTDOT);
      } else {
        RefsSame(f, g, j);
      }
    }
  }

  lemma RemovedEntries(f: Fs, g: Fs, d: nat, n: Name, i: nat)
    requires EntryInv(f) && Removed(f, g, d, n, i) && NamesEmpty(f, d, n, i)
    ensures EntryInv(g)
  {
    hide Live, Ent, Nlink, IsDir, Exists;
    Basics(f);
  }

  lemma RemovedUp(f: Fs, g: Fs, d: nat, n: Name, i: nat, depth: map<int, nat>)
    requires TreeInv(f, depth) && Removed(f, g, d, n, i) && NamesEmpty(f, d, n, i) && i != ROOT
    ensures UpInv(g, depth)
  {
    hide Live, Ent, Nlink, IsDir, Exists;
    EmptyRefs(f, i, depth);
    forall x: int | Live(g, x) && x != ROOT ensures Parent(g, x) == Parent(f, x) && Named(g, Parent(g, x), x) {
      assert Named(f, Parent(f, x), x);
      var m :| Proper(m) && Ent(f, Parent(f, x), m) == x;
      assert Ent(g, Parent(f, x), m) == x;
    }
  }

  lemma RemovedDown(f: Fs, g: Fs, d: nat, n: Name, i: nat)
    requires DownInv(f) && Removed(f, g, d, n, i) && NamesEmpty(f, d, n, i)
    ensures DownInv(g)
  {
    hide Live, Ent, Nlink, IsDir, Exists;
    Basics(f);
  }

  // ---- The last iput ----

  /** What freeing inode `i` does to every entry and count. */
  ghost predicate Freed(f: Fs, g: Fs, i: nat) {
    && (forall x: int, m :: Ent(g, x, m) == if x == i then NONE else Ent(f, x, m))
    && (forall x: int :: Live(g, x) <==> Live(f, x))
    && (forall x: int :: IsDir(g, x) <==> IsDir(f, x) && x != i)
    && (forall x: int :: x != i ==> Nlink(g, x) == Nlink(f, x))
    && (forall x: nat :: x in g <==> x in f && x != i)
    && (forall x: int :: Exists(g, x) <==> Exists(f, x) && x != i)
  }

  lemma FreeView(f: Fs, i: nat)
    requires i in f && f[i].nlink == 0
    ensures Freed(f, FreeInode(f, i), i) && !Live(f, i)
  {
  }

  /** Nothing names an inode whose count is zero. */
  lemma UnlinkedIsUnnamed(f: Fs, held: multiset<nat>, i: nat)
    requires CountInv(f, held) && i in f && f[i].nlink == 0
    ensures forall d: nat, n :: !Refers(f, d, n, i)
  {
    forall d: nat, n ensures !Refers(f, d, n, i) {
      if Refers(f, d, n, i) {
        RefsMember(f, i, d, n);
      }
    }
  }

  lemma FreedCounts(f: Fs, g: Fs, held: multiset<nat>, i: nat)
    requires CountInv(f, held) && Freed(f, g, i) && !Live(f, i)
    ensures CountInv(g, held)
  {
    hide Live, Ent, Nlink, IsDir, Exists, Refs;
    forall j: nat | j in g ensures Nlink(g, j) == |Refs(g, j)| + held[j] {
      RefsSame(f, g, j);
    }
  }

  lemma FreedTree(f: Fs, g: Fs, i: nat, depth: map<int, nat>)
    requires EntryInv(f) && TreeInv(f, depth) && Freed(f, g, i) && !Live(f, i)
    requires forall d: int, n :: !Refers(f, d, n, i)
    ensures EntryInv(g) && TreeInv(g, depth)
  {
    hide Live, Ent, Nlink, IsDir, Exists;
    Basics(f);
    forall d: int, n | Live(f, d) && Ent(f, d, n) == i ensures n == DOT {
      assert !Refers(f, d, n, i);
    }
  }

  // ---- Every step ----

  /** The directory in which the step makes a name has not been removed. */
  ghost predicate OnLive(s: State, step: Step) {
    match step
    case DoCreateFile(d, _, _, _) => Live(s.f, d)
    case DoCreateDir(d, _, _) => Live(s.f, d)
    case DoLinkName(_, d, _) => Live(s.f, d)
    case _ => true
  }

  ghost predicate Keeps(s: State, depth: map<int, nat>) { Inv(s.f, s.held, depth) }

  function DepthAfter(depth: map<int, nat>, step: Step): map<int, nat> {
    if step.DoCreateDir? then depth[step.i := Rank(depth, step.d) + 1] else depth
  }

  /** Nothing that sys_link holds goes away or turns into a directory. */
  lemma HeldKept(f: Fs, g: Fs, held: multiset<nat>)
    requires HeldInv(f, held)
    requires forall x: int :: Exists(f, x) && !IsDir(f, x) ==> Exists(g, x) && !IsDir(g, x)
    ensures HeldInv(g, held)
  {
  }

  lemma CreateFileInv(f: Fs, held: multiset<nat>, d: nat, n: Name, i: nat, depth: map<int, nat>, dev: bool)
    requires Inv(f, held, depth) && Live(f, d) && Ent(f, d, n) == NONE && i !in f
    ensures Inv(CreateFile(f, d, n, i, dev), held, depth)
  {
    hide CountInv, EntryInv, TreeInv, CreateFile, Live, Ent, Nlink;
    Basics(f);
    CreateFileCounts(f, held, d, n, i, dev);
    CreateFileTree(f, d, n, i, depth, dev);
    CreateFileView(f, d, n, i, dev);
    HeldKept(f, CreateFile(f, d, n, i, dev), held);
  }

  lemma CreateDirInv(f: Fs, held: multiset<nat>, d: nat, n: Name, i: nat, depth: map<int, nat>)
    requires Inv(f, held, depth) && Live(f, d) && Ent(f, d, n) == NONE && i !in f
    ensures Inv(CreateDir(f, d, n, i), held, depth[i := Rank(depth, d) + 1])
  {
    hide CountInv, EntryInv, UpInv, DownInv, CreateDir, Live, Ent, Nlink, Rank;
    Basics(f);
    CreateDirCounts(f, held, d, n, i);
    CreateDirEntries(f, d, n, i);
    CreateDirUp(f, d, n, i, depth);
    CreateDirDown(f, d, n, i, depth);
    CreateDirView(f, d, n, i);
    HeldKept(f, CreateDir(f, d, n, i), held);
  }

  lemma UnlinkInv(s: State, d: nat, n: Name, depth: map<int, nat>)
    requires Keeps(s, depth) && Enabled(s, DoUnlink(d, n))
    ensures Keeps(Apply(s, DoUnlink(d, n)), depth)
  {
    UnlinkFindsLinked(s.f, s.held, d, n);
    var i: nat := Ent(s.f, d, n);
    if s.f[i].kind.Folder? {
      UnlinkDirRemoves(s.f, s.held, d, n, i, depth);
      var g := Unlink(s.f, d, n);
      RemovedCounts(s.f, g, s.held, d, n, i);
      RemovedEntries(s.f, g, d, n, i);
      RemovedUp(s.f, g, d, n, i, depth);
      RemovedDown(s.f, g, d, n, i);
    } else {
      UnlinkFileCounts(s.f, s.held, d, n, i);
      UnlinkFileTree(s.f, d, n, i, depth);
      UnlinkFileView(s.f, d, n, i);
    }
  }

  lemma FreeInv(s: State, i: nat, depth: map<int, nat>)
    requires Keeps(s, depth) && Enabled(s, DoFree(i))
    ensures Keeps(Apply(s, DoFree(i)), depth)
  {
    var g := FreeInode(s.f, i);
    FreeView(s.f, i);
    UnlinkedIsUnnamed(s.f, s.held, i);
    FreedCounts(s.f, g, s.held, i);
    FreedTree(s.f, g, i, depth);
  }

  lemma LinkInv(s: State, step: Step, depth: map<int, nat>)
    requires Keeps(s, depth) && Enabled(s, step) && OnLive(s, step)
    requires step.DoLinkCount? || step.DoLinkName? || step.DoLinkUndo?
    ensures Keeps(Apply(s, step), depth)
  {
    hide CountInv, EntryInv, TreeInv, AddEntry, AddLinks, Live, Ent, Nlink;
    match step
    case DoLinkCount(i) => CountStep(s.f, s.held, i, 1, s.held + multiset{i}, depth);
    case DoLinkUndo(i) => CountStep(s.f, s.held, i, -1, s.held - multiset{i}, depth);
    case DoLinkName(i, d, n) =>
      NameCounts(s.f, s.held, i, d, n);
      NameTree(s.f, i, d, n, depth);
      NameView(s.f, i, d, n);
  }

  lemma StepInv(s: State, step: Step, depth: map<int, nat>)
    requires Keeps(s, depth) && Enabled(s, step) && OnLive(s, step)
    ensures Keeps(Apply(s, step), DepthAfter(depth, step))
  {
    hide Inv, CreateFile, CreateDir, Live, Ent;
    match step
    case DoUnlink(d, n) => UnlinkInv(s, d, n, depth);
    case DoFree(i) => FreeInv(s, i, depth);
    case DoCreateFile(d, n, i, dev) => CreateFileInv(s.f, s.held, d, n, i, depth, dev);
    case DoCreateDir(d, n, i) => CreateDirInv(s.f, s.held, d, n, i, depth);
    case _ => LinkInv(s, step, depth);
  }

  // ---- Names made in a removed directory ----

  lemma DeadDirBasics(s: State, d: nat, n: Name, depth: map<int, nat>)
    requires Keeps(s, depth) && IsDir(s.f, d) && !Live(s.f, d) && Ent(s.f, d, n) == NONE
    ensures Proper(n) && d != ROOT && forall x: nat, m :: !Refers(s.f, x, m, d)
  {
    NewNameIsProper(s.f, d, n);
    UnlinkedIsUnnamed(s.f, s.held, d);
  }

  lemma DeadCreateFile(s: State, d: nat, n: Name, i: nat, depth: map<int, nat>, dev: bool)
    requires Keeps(s, depth) && IsDir(s.f, d) && !Live(s.f, d) && Ent(s.f, d, n) == NONE && i !in s.f
    ensures !CountInv(CreateFile(s.f, d, n, i, dev), s.held)
  {
    var g := CreateFile(s.f, d, n, i, dev);
    NoRefsOutside(s.f, i);
    forall x: nat, m ensures !Refers(g, x, m, i) {
      assert Live(g, x) <==> Live(s.f, x);
      assert x != d && x != i ==> Ent(g, x, m) == Ent(s.f, x, m);
    }
    NoRefs(g, i);
    assert Nlink(g, i) == 1 && i in g;
  }

  lemma DeadLinkName(s: State, i: nat, d: nat, n: Name, depth: map<int, nat>)
    requires Keeps(s, depth) && IsDir(s.f, d) && !Live(s.f, d) && Ent(s.f, d, n) == NONE && s.held[i] > 0
    ensures !CountInv(AddEntry(s.f, d, n, i), s.held - multiset{i})
  {
    var g := AddEntry(s.f, d, n, i);
    forall x: nat, m ensures Refers(g, x, m, i) <==> Refers(s.f, x, m, i) {
      assert Live(g, x) <==> Live(s.f, x);
      assert x != d ==> Ent(g, x, m) == Ent(s.f, x, m);
    }
    RefsSame(s.f, g, i);
    assert i in g && Nlink(g, i) == Nlink(s.f, i);
  }

  lemma DeadCreateDir(s: State, d: nat, n: Name, i: nat, depth: map<int, nat>, depth': map<int, nat>)
    requires Keeps(s, depth) && IsDir(s.f, d) && !Live(s.f, d) && Ent(s.f, d, n) == NONE && i !in s.f
    ensures !UpInv(CreateDir(s.f, d, n, i), depth')
  {
    var g := CreateDir(s.f, d, n, i);
    DeadDirBasics(s, d, n, depth);
    var p := Parent(g, d);
    assert Live(g, d) && p == Parent(s.f, d);
    forall m | Proper(m) && Live(g, p) ensures Ent(g, p, m) != d {
      assert !Refers(s.f, p, m, d);
      assert p != d && p != i ==> Ent(g, p, m) == Ent(s.f, p, m) && Live(s.f, p);
      assert p == i ==> Ent(g, p, m) == NONE;
      assert p == d ==> Ent(g, p, m) == if m == n then i else Ent(s.f, d, m);
    }
  }

  /** A system call that makes a name keeps the counts and the tree exactly when the directory it makes it in
      has not been removed; the other steps always do. */
  lemma KeptExactly(s: State, step: Step, depth: map<int, nat>)
    requires Keeps(s, depth) && Enabled(s, step)
    ensures OnLive(s, step) <==> exists depth' :: Keeps(Apply(s, step), depth')
  {
    if OnLive(s, step) {
      StepInv(s, step, depth);
    } else {
      forall depth' ensures !Keeps(Apply(s, step), depth') {
        match step
        case DoCreateFile(d, n, i, dev) => DeadCreateFile(s, d, n, i, depth, dev);
        case DoCreateDir(d, n, i) => DeadCreateDir(s, d, n, i, depth, depth');
        case DoLinkName(i, d, n) => DeadLinkName(s, i, d, n, depth);
      }
    }
  }

  // ---- Runs ----

  /** The tree that mkfs makes, before it adds files: the root, whose ".." is itself. */
  const INITIAL := State(map[ROOT := Node(Folder, 1, DotEntries(ROOT, ROOT))], multiset{})

  datatype Run = Start | Then(before: Run, step: Step)

  ghost function After(r: Run): State
    requires Possible(r)
    decreases r, 1
  {
    if r.Start? then INITIAL else Apply(After(r.before), r.step)
  }

  /** Each step passes the checks of its system call. */
  ghost predicate Possible(r: Run)
    decreases r, 0
  {
    r.Then? ==> Possible(r.before) && Enabled(After(r.before), r.step)
  }

  ghost predicate AlwaysLive(r: Run)
    requires Possible(r)
  {
    r.Then? ==> AlwaysLive(r.before) && OnLive(After(r.before), r.step)
  }

  ghost function DepthOf(r: Run): map<int, nat> {
    if r.Start? then map[ROOT := 0] else DepthAfter(DepthOf(r.before), r.step)
  }

  lemma InitialInv()
    ensures Keeps(INITIAL, map[ROOT := 0])
  {
    var f := INITIAL.f;
    var none: Fs := map[];
    NoRefs(none, ROOT);
    RefsGain(none, f, ROOT, ROOT, DOTDOT);
    assert forall i :: i in f ==> i == ROOT;
    assert forall n :: Proper(n) ==> Ent(f, ROOT, n) == NONE;
  }

  lemma {:induction false} ReachableInv(r: Run)
    requires Possible(r) && AlwaysLive(r)
    ensures Keeps(After(r), DepthOf(r))
  {
    if r.Start? {
      InitialInv();
    } else {
      ReachableInv(r.before);
      StepInv(After(r.before), r.step, DepthOf(r.before));
    }
  }

  /** Following ".." from any live directory ends at the root: the tree has no cycle. */
  function Up(f: Fs, d: int, k: nat): int
    decreases k
  {
    if k == 0 || d == ROOT then d else Up(f, Parent(f, d), k - 1)
  }

  lemma {:induction false} UpReachesRoot(f: Fs, d: int, depth: map<int, nat>, k: nat)
    requires TreeInv(f, depth) && Live(f, d) && k >= Rank(depth, d)
    ensures Up(f, d, k) == ROOT
    decreases k
  {
    assert d != ROOT ==> Rank(depth, Parent(f, d)) < Rank(depth, d);
    if k > 0 && d != ROOT {
      UpReachesRoot(f, Parent(f, d), depth, k - 1);
    }
  }

  const MAKE := DoCreateDir(ROOT, "d", 2)
  const REMOVE := DoUnlink(ROOT, "d")

  lemma MakeDirectory()
    ensures Enabled(INITIAL, MAKE) && OnLive(INITIAL, MAKE)
    ensures var s := Apply(INITIAL, MAKE);
            && s.f.Keys == {ROOT, 2} && s.f[ROOT].nlink == 2 && s.f[2] == Node(Folder, 1, DotEntries(2, ROOT))
            && s.f[ROOT].kind.Folder? && Ent(s.f, ROOT, "d") == 2
  {
  }

  lemma RemoveDirectory(s: State)
    requires s.f.Keys == {ROOT, 2} && s.f[ROOT].nlink == 2 && s.f[2] == Node(Folder, 1, DotEntries(2, ROOT))
    requires s.f[ROOT].kind.Folder? && Ent(s.f, ROOT, "d") == 2
    ensures Enabled(s, REMOVE)
    ensures var g := Apply(s, REMOVE).f; IsDir(g, 2) && !Live(g, 2) && Ent(g, 2, "x") == NONE && 3 !in g
  {
    assert Empty(s.f, 2);
  }

  /** A directory can be removed while a process still works in it, and then names made in it break the counts. */
  lemma RemovedWorkingDirectory(r: Run)
    requires r == Then(Then(Then(Start, MAKE), REMOVE), DoCreateFile(2, "x", 3, false))
    ensures Possible(r) && !exists depth :: Keeps(After(r), depth)
  {
    hide Enabled, Apply, OnLive, Keeps;
    var r1, r2 := r.before.before, r.before;
    assert Possible(Start) && AlwaysLive(Start) && After(Start) == INITIAL;
    MakeDirectory();
    assert Possible(r1) && AlwaysLive(r1) && After(r1) == Apply(INITIAL, MAKE);
    RemoveDirectory(After(r1));
    UnlinkOnLive(After(r1));
    assert Possible(r2) && AlwaysLive(r2) && After(r2) == Apply(After(r1), REMOVE);
    ReachableInv(r2);
    CreateEnabled(After(r2));
    KeptExactly(After(r2), r.step, DepthOf(r2));
  }

  lemma UnlinkOnLive(s: State)
    ensures OnLive(s, REMOVE)
  {
  }

  lemma CreateEnabled(s: State)
    requires IsDir(s.f, 2) && !Live(s.f, 2) && Ent(s.f, 2, "x") == NONE && 3 !in s.f
    ensures var step := DoCreateFile(2, "x", 3, false); Enabled(s, step) && !OnLive(s, step)
  {
  }

  /** Make a directory in directory 2, remove it, remove directory 2 and free it. */
  const ORPHANED := Then(Then(Then(Then(Then(Start, MAKE), MAKEINNER), REMOVEINNER), REMOVE), DoFree(2))
  const MAKEINNER := DoCreateDir(2, "e", 3)
  const REMOVEINNER := DoUnlink(2, "e")

  lemma MakeInner(s: State)
    requires s.f.Keys == {ROOT, 2} && s.f[2] == Node(Folder, 1, DotEntries(2, ROOT))
    ensures Enabled(s, MAKEINNER) && OnLive(s, MAKEINNER)
    ensures var t := Apply(s, MAKEINNER);
            && t.f.Keys == {ROOT, 2, 3} && t.f[ROOT] == s.f[ROOT]
            && t.f[2] == Node(Folder, 2, DotEntries(2, ROOT)["e" := 3]) && t.f[3] == Node(Folder, 1, DotEntries(3, 2))
  {
  }

  lemma RemoveInner(s: State)
    requires s.f.Keys == {ROOT, 2, 3}
    requires s.f[2] == Node(Folder, 2, DotEntries(2, ROOT)["e" := 3]) && s.f[3] == Node(Folder, 1, DotEntries(3, 2))
    ensures Enabled(s, REMOVEINNER) && OnLive(s, REMOVEINNER)
    ensures var t := Apply(s, REMOVEINNER);
            && t.f.Keys == {ROOT, 2, 3} && t.f[ROOT] == s.f[ROOT]
            && t.f[2] == Node(Folder, 1, DotEntries(2, ROOT)) && t.f[3] == Node(Folder, 0, DotEntries(3, 2))
  {
    assert Empty(s.f, 3);
    assert DotEntries(2, ROOT)["e" := 3] - {"e"} == DotEntries(2, ROOT);
  }

  lemma RemoveOuter(s: State)
    requires s.f.Keys == {ROOT, 2, 3} && s.f[ROOT].kind.Folder? && Ent(s.f, ROOT, "d") == 2
    requires s.f[2] == Node(Folder, 1, DotEntries(2, ROOT)) && s.f[3] == Node(Folder, 0, DotEntries(3, 2))
    ensures Enabled(s, REMOVE) && OnLive(s, REMOVE)
    ensures var t := Apply(s, REMOVE); t.f.Keys == {ROOT, 2, 3} && t.f[2].nlink == 0 && t.f[3] == s.f[3]
  {
    assert Empty(s.f, 2);
  }

  lemma FreeOuter(s: State)
    requires s.f.Keys == {ROOT, 2, 3} && s.f[2].nlink == 0 && s.f[3] == Node(Folder, 0, DotEntries(3, 2))
    ensures Enabled(s, DoFree(2)) && OnLive(s, DoFree(2))
    ensures var f := Apply(s, DoFree(2)).f; IsDir(f, 3) && !Live(f, 3) && Ent(f, 3, DOTDOT) == 2 && !Exists(f, 2)
  {
  }

  /** The ".." of a removed directory can name an inode that has been freed. */
  lemma OrphanedDirectory(r: Run)
    requires r == ORPHANED
    ensures Possible(r) && AlwaysLive(r)
    ensures var f := After(r).f; IsDir(f, 3) && !Live(f, 3) && Ent(f, 3, DOTDOT) == 2 && !Exists(f, 2)
  {
    hide Enabled, Apply, OnLive, IsDir, Live, Exists;
    var r4 := r.before;
    var r3 := r4.before;
    var r2 := r3.before;
    var r1 := r2.before;
    assert Possible(Start) && AlwaysLive(Start) && After(Start) == INITIAL;
    MakeDirectory();
    assert Possible(r1) && AlwaysLive(r1) && After(r1) == Apply(INITIAL, MAKE);
    MakeInner(After(r1));
    assert Possible(r2) && AlwaysLive(r2) && After(r2) == Apply(After(r1), MAKEINNER);
    RemoveInner(After(r2));
    assert Possible(r3) && AlwaysLive(r3) && After(r3) == Apply(After(r2), REMOVEINNER);
    RemoveOuter(After(r3));
    assert Possible(r4) && AlwaysLive(r4) && After(r4) == Apply(After(r3), REMOVE);
    FreeOuter(After(r4));
    assert Possible(r) && After(r) == Apply(After(r4), DoFree(2));
  }
}
