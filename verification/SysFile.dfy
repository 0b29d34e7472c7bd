/** The system calls that make and remove names, in the order in which they update the inodes.

    Each method runs under the locks that the call holds: create and unlink are one section, link is two. */
module SysFile {
  import opened Params
  import opened Links

  /** What create returns: a new inode, a regular file that is there already, or 0 for another inode of that name.
      `NoType` is ilock's panic, for an entry whose inode has been freed. */
  datatype Created = Fresh(inum: nat) | Existing(inum: nat) | Refused | NoType

  /** What isdirempty checks, on the names of the directory. */
  lemma EmptyKeys(f: Fs, i: nat)
    requires i in f
    ensures f[i].entries.Keys <= {DOT, DOTDOT} <==> Empty(f, i)
  {
    assert forall n :: n in f[i].entries.Keys <==> Ent(f, i, n) != NONE;
  }

  /** An entry that unlink finds names an allocated inode with a link. */
  lemma Found(s: State, d: nat, n: Name, depth: map<int, nat>)
    requires Keeps(s, depth) && IsDir(s.f, d) && Proper(n) && Ent(s.f, d, n) != NONE
    ensures Exists(s.f, Ent(s.f, d, n)) && Nlink(s.f, Ent(s.f, d, n)) >= 1
  {
    UnlinkFindsLinked(s.f, s.held, d, n);
  }

  /** An entry that create finds names an allocated inode, unless it is the ".." of a removed directory. */
  lemma FoundExists(s: State, d: nat, n: Name, depth: map<int, nat>)
    requires Keeps(s, depth) && IsDir(s.f, d) && Ent(s.f, d, n) != NONE && (Live(s.f, d) || n != DOTDOT)
    ensures Exists(s.f, Ent(s.f, d, n))
  {
  }

  /** A run after which create of ".." in directory 3 meets ilock's panic, though the invariant holds. */
  lemma CreateMeetsPanic(r: Run)
    requires r == ORPHANED
    ensures Possible(r) && Keeps(After(r), DepthOf(r))
    ensures var f := After(r).f; IsDir(f, 3) && !Live(f, 3) && Ent(f, 3, DOTDOT) != NONE && !Exists(f, Ent(f, 3, DOTDOT))
  {
    hide Keeps, DepthOf;
    OrphanedDirectory(r);
    ReachableInv(r);
  }

  class Namespace {
    var nodes: Fs
    ghost var held: multiset<nat>     // files that link has counted and not named yet
    ghost var depth: map<int, nat>

    ghost function Now(): State
      reads this
    {
      State(nodes, held)
    }

    ghost predicate Valid()
      reads this
    {
      Keeps(Now(), depth)
    }

    constructor ()
      ensures Valid() && Now() == INITIAL
    {
      nodes, held, depth := INITIAL.f, INITIAL.held, map[ROOT := 0];
      InitialInv();
    }

    /** dirlink fails exactly when the name is taken. */
    method Dirlink(d: nat, n: Name, i: nat) returns (ok: bool)
      requires d in nodes
      modifies `nodes
      ensures ok <==> Ent(old(nodes), d, n) == NONE
      ensures nodes == if ok then AddEntry(old(nodes), d, n, i) else old(nodes)
    {
      if n in nodes[d].entries {
        return false;
      }
      nodes := nodes[d := nodes[d].(entries := nodes[d].entries[n := i])];
      return true;
    }

    method SetNlink(i: nat, k: int)
      requires i in nodes
      modifies `nodes
      ensures nodes == AddLinks(old(nodes), i, k)
    {
      nodes := nodes[i := nodes[i].(nlink := nodes[i].nlink + k)];
    }

    /** The "." and ".." of a new directory. */
    method LinkDots(i: nat, parent: nat)
      requires i in nodes && nodes[i] == Node(Folder, 1, map[])
      modifies `nodes
      ensures nodes == old(nodes)[i := Node(Folder, 1, DotEntries(i, parent))]
    {
      var ok := Dirlink(i, DOT, i);
      assert nodes[i].entries == map[DOT := i];
      ok := Dirlink(i, DOTDOT, parent);
      assert nodes[i].entries == DotEntries(i, parent);
    }

    /** create: `i` is the inode that ialloc gives.  A taken name is accepted for a regular file that is one already.
        create's own panics cannot happen; ilock's happens exactly for the ".." of a removed directory whose parent has
        been freed. */
    method Create(d: nat, n: Name, kind: Kind, i: nat) returns (r: Created)
      requires Valid() && IsDir(nodes, d) && i !in nodes
      modifies this
      ensures r.Fresh? <==> Ent(old(nodes), d, n) == NONE
      ensures r.Existing? <==> kind.Regular? && var e := Ent(old(nodes), d, n); Exists(old(nodes), e) && old(nodes)[e].kind.Regular?
      ensures r.Existing? ==> r.inum == Ent(nodes, d, n)
      ensures r.NoType? <==> n == DOTDOT && !Live(old(nodes), d)
                             && Ent(old(nodes), d, n) != NONE && !Exists(old(nodes), Ent(old(nodes), d, n))
      ensures !r.Fresh? ==> Now() == old(Now()) && Valid()
      ensures r.Fresh? ==>
                var step := if kind.Folder? then DoCreateDir(d, n, i) else DoCreateFile(d, n, i, kind.Device?);
                r.inum == i && Now() == Apply(old(Now()), step) && (Live(old(nodes), d) ==> Valid())
    {
      hide Keeps, Live;
      if n in nodes[d].entries {
        var e := nodes[d].entries[n];
        if n != DOTDOT || Live(nodes, d) {
          FoundExists(Now(), d, n, depth);
        }
        return if e !in nodes then NoType else if kind.Regular? && nodes[e].kind.Regular? then Existing(e) else Refused;
      }
      ghost var s := Now();
      ghost var step := if kind.Folder? then DoCreateDir(d, n, i) else DoCreateFile(d, n, i, kind.Device?);
      ghost var deeper := DepthAfter(depth, step);
      if OnLive(s, step) {
        StepInv(s, step, depth);
      }
      nodes := nodes[i := Node(kind, 1, map[])];
      if kind.Folder? {
        SetNlink(d, 1);
        LinkDots(i, d);
        assert nodes == AddLinks(s.f[i := Node(Folder, 1, DotEntries(i, d))], d, 1);
      }
      var ok := Dirlink(d, n, i);
      assert ok;
      depth := deeper;
      return Fresh(i);
    }

    /** The first section of sys_link: count the link, unless the inode is a directory. */
    method LinkCount(i: nat) returns (ok: bool)
      requires Valid() && i in nodes
      modifies this
      ensures Valid() && ok == !IsDir(old(nodes), i)
      ensures Now() == if ok then Apply(old(Now()), DoLinkCount(i)) else old(Now())
    {
      hide Keeps;
      if nodes[i].kind.Folder? {
        return false;
      }
      StepInv(Now(), DoLinkCount(i), depth);
      SetNlink(i, 1);
      held := held + multiset{i};
      return true;
    }

    /** The second section of sys_link: name the inode, or take the count back if the name is taken. */
    method LinkName(i: nat, d: nat, n: Name) returns (ok: bool)
      requires Valid() && i in nodes && held[i] > 0 && IsDir(nodes, d)
      modifies this
      ensures ok <==> Ent(old(nodes), d, n) == NONE
      ensures !ok ==> Now() == Apply(old(Now()), DoLinkUndo(i)) && Valid()
      ensures ok ==> Now() == Apply(old(Now()), DoLinkName(i, d, n)) && (Live(old(nodes), d) ==> Valid())
    {
      hide Keeps, Live;
      ghost var s := Now();
      if Ent(nodes, d, n) == NONE {
        if OnLive(s, DoLinkName(i, d, n)) {
          StepInv(s, DoLinkName(i, d, n), depth);
        }
      } else {
        StepInv(s, DoLinkUndo(i), depth);
      }
      ok := Dirlink(d, n, i);
      if !ok {
        SetNlink(i, -1);
      }
      held := held - multiset{i};
    }

    /** sys_unlink; its "nlink < 1" panic cannot happen. */
    method Unlink(d: nat, n: Name) returns (ok: bool)
      requires Valid() && IsDir(nodes, d)
      modifies this
      ensures Valid() && (ok <==> Enabled(old(Now()), DoUnlink(d, n)))
      ensures Now() == if ok then Apply(old(Now()), DoUnlink(d, n)) else old(Now())
    {
      hide Keeps, Empty;
      if n == DOT || n == DOTDOT || n !in nodes[d].entries {
        return false;
      }
      Found(Now(), d, n, depth);
      var i := nodes[d].entries[n];
      assert nodes[i].nlink >= 1;
      EmptyKeys(nodes, i);
      if nodes[i].kind.Folder? && !(nodes[i].entries.Keys <= {DOT, DOTDOT}) {
        return false;
      }
      StepInv(Now(), DoUnlink(d, n), depth);
      nodes := nodes[d := nodes[d].(entries := nodes[d].entries - {n})];
      if nodes[i].kind.Folder? {
        SetNlink(d, -1);
      }
      SetNlink(i, -1);
      return true;
    }
  }
}
