/** mkfs: building a file system image by appending, with blocks handed out in order.

    The bitmap is not kept while building: the blocks below `freeblock` are those in use, and balloc writes that down
    at the end.  `ok == false` stands for mkfs exiting because a block is beyond the image. */
module Mkfs {
  import opened Params
  import opened FileBlocks
  import opened FileSys

  /** The bitmap that balloc writes: the first `n` blocks are in use. */
  function FirstUsed(total: nat, n: nat): (u: seq<bool>)
    ensures |u| == total && forall b :: 0 <= b < total ==> u[b] == (b < n)
  {
    seq(total, b => b < n)
  }

  function NoAddrs(): (a: seq<int>)
    ensures |a| == NDIRECT + 1 && forall k :: 0 <= k <= NDIRECT ==> a[k] == 0
  {
    seq(NDIRECT + 1, _ => 0)
  }

  /** From byte `pos` on, inode `i` has no block of its own, and the rest of its last block is zero; it has no indirect
      block before it needs one. */
  ghost predicate EndsAt(f: FS, i: int, pos: nat) {
    && (forall bn :: 0 <= bn && bn * BSIZE >= pos ==> Slot(f, i, SlotOf(bn)) == 0)
    && (pos <= NDIRECT * BSIZE ==> Slot(f, i, NDIRECT) == 0)
    && (forall o: nat :: o >= pos ==> ByteAt(f, i, o) == 0)
  }

  /** Every inode ends at its size. */
  ghost predicate Tidy(f: FS) {
    forall i :: 0 <= i < |f.inodes| ==> EndsAt(f, i, f.inodes[i].size)
  }

  /** Blocks that a file of `n` bytes takes, with its indirect block. */
  function BlocksOf(n: nat): nat { (n + BSIZE - 1) / BSIZE + if n > NDIRECT * BSIZE then 1 else 0 }

  /** Mapping the next block of inode `i` moves nothing else; a new block is zero. */
  lemma EndsAtMapped(f: FS, g: FS, i: nat, pos: nat, x: nat, j: nat, end: nat)
    requires Wf(f) && Mapped(f, g, i, pos / BSIZE, x) && i < |f.inodes| && j < |f.inodes| && EndsAt(f, j, end)
    requires Slot(f, i, SlotOf(pos / BSIZE)) == 0 ==> x < |g.blocks| && g.blocks[x] == Zeroes()
    requires j == i ==> end == pos
    ensures forall bn :: 0 <= bn && bn * BSIZE >= end && !(j == i && bn == pos / BSIZE) ==> Slot(g, j, SlotOf(bn)) == 0
    ensures forall o: nat :: o >= end ==> ByteAt(g, j, o) == 0
    ensures end <= NDIRECT * BSIZE && !(j == i && pos / BSIZE >= NDIRECT) ==> Slot(g, j, NDIRECT) == 0
  {
    hide Slot;
    forall o: nat | o >= end ensures ByteAt(g, j, o) == 0 {
      var s := SlotOf(o / BSIZE);
      if Slot(f, j, s) != 0 {
        MappedBytes(f, g, i, pos / BSIZE, x, j, o);
      } else if j == i && o / BSIZE == pos / BSIZE {
      } else {
        assert Slot(g, j, s) == 0;
      }
    }
  }

  /** One round of iappend's loop: map the block, then copy `m` bytes into it. */
  lemma RoundKeepsEnds(f: FS, g: FS, i: nat, pos: nat, data: seq<int>, x: nat, j: nat, end: nat)
    requires Wf(f) && Mapped(f, g, i, pos / BSIZE, x) && i < |f.inodes| && j < |f.inodes| && EndsAt(f, j, end)
    requires Slot(f, i, SlotOf(pos / BSIZE)) == 0 ==> x < |g.blocks| && g.blocks[x] == Zeroes()
    requires (j == i ==> end == pos) && pos % BSIZE + |data| <= BSIZE && |data| > 0
    ensures x < |g.blocks| && |g.blocks[x]| == BSIZE
    ensures EndsAt(PutBlock(g, x, Patch(g.blocks[x], pos % BSIZE, data)), j, if j == i then pos + |data| else end)
  {
    EndsAtMapped(f, g, i, pos, x, j, end);
    PatchBytes(g, i, pos / BSIZE, pos % BSIZE, data);
    hide Slot, ByteAt;
    var h := PutBlock(g, x, Patch(g.blocks[x], pos % BSIZE, data));
    var to := if j == i then pos + |data| else end;
    assert pos / BSIZE * BSIZE + pos % BSIZE == pos;
    forall bn | 0 <= bn && bn * BSIZE >= to ensures Slot(h, j, SlotOf(bn)) == 0 {
      assert j == i ==> bn != pos / BSIZE;
    }
  }

  class Image {
    var blocks: seq<Block>
    var inodes: seq<Inode>
    var types: seq<int>       // of the inodes, and their link counts
    var nlinks: seq<int>
    const meta: nat
    var freeblock: nat
    var freeinode: nat

    ghost function View(): FS
      reads this
    {
      FS(FirstUsed(|blocks|, freeblock), blocks, inodes, meta)
    }

    ghost predicate Unwritten()
      reads this
    {
      meta <= freeblock <= |blocks| && forall b :: freeblock <= b < |blocks| ==> blocks[b] == Zeroes()
    }

    /** What the kernel's invariant asks of the image, and the rest of each file's last block is zero. */
    ghost predicate Valid()
      reads this
    {
      Wf(View()) && NoLeak(View()) && Unwritten()
    }

    /** The blank image: no inode has a block, and only the meta blocks are in use. */
    constructor (nblocks: nat, ninodes: nat, nmeta: nat)
      requires 0 < nmeta <= nblocks < 0x1_0000_0000
      ensures Valid() && Tidy(View()) && freeinode == 1 && |inodes| == ninodes && freeblock == nmeta
      ensures Fresh() && |types| == |nlinks| == ninodes && |blocks| == nblocks
    {
      meta := nmeta;
      types, nlinks := seq(ninodes, _ => 0), seq(ninodes, _ => 0);
      blocks := seq(nblocks, _ => Zeroes());
      inodes := seq(ninodes, _ => Inode(0, NoAddrs()));
      freeblock := nmeta;
      freeinode := 1;
      new;
      BlankSlots(View());
      BlankOk(View());
    }

    /** din.addrs[k] = freeblock++, for a direct slot or the indirect block. */
    method AllocAddr(i: nat, k: nat) returns (ok: bool)
      requires Valid() && i < |inodes| && k <= NDIRECT && inodes[i].addrs[k] == 0
      modifies `inodes, `freeblock
      ensures ok <==> old(freeblock) < |blocks|
      ensures ok ==> Valid() && Allocated(old(View()), View(), i, k, old(freeblock)) && inodes[i].addrs[k] == old(freeblock)
      ensures ok ==> Slot(old(View()), i, k) == 0 && freeblock == old(freeblock) + 1 && |inodes| == |old(inodes)|
    {
      hide Slot, NoLeak, Owned, Unshared, NoHoles, SlotSet;
      ok := freeblock < |blocks|;
      if ok {
        ghost var f := View();
        AddrSlot(f, i, k);
        AllocateDirect(f, i, k, freeblock);
        AllocatedNoLeak(f, SetAddr(Take(f, freeblock), i, k, freeblock), i, k, freeblock);
        inodes := inodes[i := inodes[i].(addrs := inodes[i].addrs[k := freeblock])];
        freeblock := freeblock + 1;
        assert View() == SetAddr(Take(f, freeblock - 1), i, k, freeblock - 1);
      }
    }

    /** indirect[j] = freeblock++, written back to the indirect block. */
    method AllocWord(i: nat, j: nat) returns (ok: bool)
      requires Valid() && i < |inodes| && j < NINDIRECT && inodes[i].addrs[NDIRECT] != 0
      requires Slot(View(), i, NDIRECT + 1 + j) == 0
      modifies `blocks, `freeblock
      ensures |blocks| == |old(blocks)| && (ok <==> old(freeblock) < |blocks|)
      ensures ok ==> Valid() && Allocated(old(View()), View(), i, NDIRECT + 1 + j, old(freeblock))
      ensures ok ==> freeblock == old(freeblock) + 1 && blocks[old(freeblock)] == Zeroes()
    {
      hide Slot, NoLeak, Owned, Unshared, NoHoles, SlotSet, SetWord;
      ok := freeblock < |blocks|;
      if ok {
        ghost var f := View();
        var r := inodes[i].addrs[NDIRECT];
        IndirectInUse(f, i, freeblock);
        AllocateIndirect(f, i, j, freeblock);
        ghost var t := Take(f, freeblock);
        ghost var g := PutBlock(t, r, SetWord(t.blocks[r], j, freeblock));
        AllocatedNoLeak(f, g, i, NDIRECT + 1 + j, freeblock);
        assert t.blocks[r] == blocks[r];
        blocks := blocks[r := SetWord(blocks[r], j, freeblock)];
        freeblock := freeblock + 1;
        assert View() == g;
      }
    }

    /** The block of file block `fbn`, allocated if there is none.  It fails exactly when the image has fewer blocks left
        than are missing. */
    method MapBlock(i: nat, fbn: nat) returns (x: nat, ok: bool)
      requires Valid() && i < |inodes| && fbn < MAXFILE
      modifies `blocks, `inodes, `freeblock
      ensures ok <==> old(freeblock) + |Missing(old(View()), i, fbn, fbn + 1)| <= |blocks|
      ensures ok ==> Valid() && BmapOk(old(View()), View(), i, fbn, x) && x < freeblock
      ensures ok ==> freeblock == old(freeblock) + |Missing(old(View()), i, fbn, fbn + 1)|
      ensures ok && Slot(old(View()), i, SlotOf(fbn)) == 0 ==> x < |blocks| && blocks[x] == Zeroes()
      ensures |blocks| == |old(blocks)|
    {
      hide Slot, NoLeak, Owned, Unshared, NoHoles, SlotSet, SetWord, BmapOk, Word, Missing;
      x, ok := 0, true;
      ghost var f := View();
      MissingOne(f, i, fbn);
      if fbn < NDIRECT {
        AddrSlot(f, i, fbn);
        if inodes[i].addrs[fbn] == 0 {
          x := freeblock;
          ok := AllocAddr(i, fbn);
          if ok {
            BmapAllocated(f, View(), i, fbn, x);
          }
        } else {
          Present(f, i, fbn, freeblock);
          x := inodes[i].addrs[fbn];
        }
      } else {
        AddrSlot(f, i, NDIRECT);
        if inodes[i].addrs[NDIRECT] == 0 {
          NoWords(f, i, SlotOf(fbn));
          ok := AllocAddr(i, NDIRECT);
          if !ok {
            return;
          }
        }
        ghost var g := View();
        IndirectInUse(g, i, freeblock);
        AddrSlot(g, i, NDIRECT);
        IndirectSlot(g, i, fbn - NDIRECT);
        if Word(blocks[inodes[i].addrs[NDIRECT]], fbn - NDIRECT) == 0 {
          x := freeblock;
          ok := AllocWord(i, fbn - NDIRECT);
          if ok {
            MappedWord(f, g, View(), i, fbn, x);
          }
        } else {
          WordWasThere(f, g, i, fbn);
          Present(f, i, fbn, freeblock);
          x := Word(blocks[inodes[i].addrs[NDIRECT]], fbn - NDIRECT);
        }
      }
    }

    /** One round of iappend's loop, with `tot` bytes of `src` appended to the file as `f` has it: `m` more, unless the
        image has too few blocks left. */
    method AppendRound(i: nat, src: seq<int>, start: nat, tot: nat, ghost f: FS) returns (m: nat, ok: bool)
      requires Valid() && Wf(f) && Appending(f, View(), i, src, tot) && tot < |src| && start == f.inodes[i].size
      requires start + tot < MAXFILE * BSIZE && (tot == 0 || (start + tot) % BSIZE == 0)
      modifies `blocks, `inodes, `freeblock
      ensures |blocks| == |old(blocks)| && m == ChunkLen(start + tot, |src| - tot)
      ensures ok <==> old(freeblock) + BlocksOf(start + tot + m) - BlocksOf(start + tot) <= |blocks|
      ensures ok ==> Valid() && Appending(f, View(), i, src, tot + m)
      ensures ok ==> freeblock == old(freeblock) + BlocksOf(start + tot + m) - BlocksOf(start + tot)
    {
      hide Slot, NoLeak, Wf, Appending, BmapOk, Patch, Missing, BlocksOf, ChunkLen;
      ghost var g := View();
      AppendingFacts(f, g, i, src, tot);
      var fbn := (start + tot) / BSIZE;
      m := if |src| - tot < (fbn + 1) * BSIZE - (start + tot) then |src| - tot else (fbn + 1) * BSIZE - (start + tot);
      AppendChunk(start + tot, |src| - tot);
      AppendTakes(f, g, i, src, tot, m);
      var x;
      x, ok := MapBlock(i, fbn);
      if !ok {
        return;
      }
      AppendingStep(f, g, View(), i, src, tot, m, x);
      blocks := blocks[x := Patch(blocks[x], start + tot - fbn * BSIZE, src[tot..tot + m])];
      AppendingFacts(f, View(), i, src, tot + m);
    }

    /** iappend adds the bytes at the end of the file, and changes no other file.  It fails exactly when the file becomes
        too large or the image has too few blocks left. */
    method IAppend(i: nat, src: seq<int>) returns (ok: bool)
      requires Valid() && Tidy(View()) && i < |inodes|
      modifies `blocks, `inodes, `freeblock
      ensures var size := old(inodes[i].size);
              && (ok <==> size + |src| <= MAXFILE * BSIZE
                          && old(freeblock) + BlocksOf(size + |src|) - BlocksOf(size) <= |old(blocks)|)
              && (ok ==> freeblock == old(freeblock) + BlocksOf(size + |src|) - BlocksOf(size))
      ensures ok ==> Valid() && Tidy(View()) && |inodes| == |old(inodes)| && |blocks| == |old(blocks)|
      ensures ok ==> Content(View(), i) == old(Content(View(), i)) + src
      ensures ok ==> forall j :: 0 <= j < |inodes| && j != i ==> inodes[j] == old(inodes)[j] && Content(View(), j) == old(Content(View(), j))
    {
      hide Slot, NoLeak, Wf, Appending, Content, Tidy, BlocksOf, ChunkLen;
      ghost var f := View();
      var start := inodes[i].size;
      var tot := 0;
      AppendingStart(f, i, src);
      SizeBound(f, i);
      while tot < |src|
        invariant tot <= |src| && Valid() && |blocks| == |f.blocks|
        invariant Appending(f, View(), i, src, tot) && start + tot <= MAXFILE * BSIZE
        invariant tot < |src| ==> tot == 0 || (start + tot) % BSIZE == 0
        invariant freeblock == old(freeblock) + BlocksOf(start + tot) - BlocksOf(start)
      {
        if (start + tot) / BSIZE >= MAXFILE {
          return false;
        }
        AppendChunk(start + tot, |src| - tot);
        var m, there := AppendRound(i, src, start, tot, f);
        BlocksGrow(start + tot + m, start + |src|);
        if !there {
          return false;
        }
        tot := tot + m;
      }
      Appended(f, View(), i, src);
      AppendingFacts(f, View(), i, src, |src|);
      ghost var g := View();
      inodes := inodes[i := inodes[i].(size := start + |src|)];
      assert inodes == Resized(g, i, start + |src|).inodes;
      assert View() == Resized(g, i, start + |src|);
      return true;
    }

    /** Inodes not handed out yet are blank. */
    ghost predicate Fresh()
      reads this
    {
      forall i :: freeinode <= i < |inodes| ==> inodes[i] == Inode(0, NoAddrs())
    }

    /** ialloc of the next inode, with one link. */
    method IAlloc(kind: int) returns (inum: nat)
      requires Fresh() && freeinode < |inodes| == |types| == |nlinks|
      modifies `inodes, `types, `nlinks, `freeinode
      ensures inum == old(freeinode) && freeinode == inum + 1 && Fresh() && View() == old(View()) && inodes[inum].size == 0
      ensures types == old(types)[inum := kind] && nlinks == old(nlinks)[inum := 1]
    {
      inum := freeinode;
      freeinode := freeinode + 1;
      inodes := inodes[inum := Inode(0, NoAddrs())];
      types, nlinks := types[inum := kind], nlinks[inum := 1];
      assert inodes == old(inodes);
    }

    /** A file's bytes, appended a buffer at a time. */
    method AppendFile(i: nat, data: seq<int>) returns (ok: bool)
      requires Valid() && Tidy(View()) && Fresh() && i < freeinode <= |inodes| && Content(View(), i) == []
      modifies `blocks, `inodes, `freeblock
      ensures ok <==> |data| <= MAXFILE * BSIZE && old(freeblock) + BlocksOf(|data|) <= |old(blocks)|
      ensures ok ==> freeblock == old(freeblock) + BlocksOf(|data|) && |blocks| == |old(blocks)|
      ensures ok ==> Valid() && Tidy(View()) && Fresh() && |inodes| == |old(inodes)| && Content(View(), i) == data
      ensures ok ==> forall j :: 0 <= j < |inodes| && j != i ==> inodes[j] == old(inodes)[j] && Content(View(), j) == old(Content(View(), j))
    {
      hide NoLeak, Wf, Content, Tidy, BlocksOf;
      NoBlocks();
      var off := 0;
      while off < |data|
        invariant off <= |data| && Valid() && Tidy(View()) && |inodes| == |old(inodes)| && Content(View(), i) == data[..off]
        invariant |blocks| == |old(blocks)| && freeblock == old(freeblock) + BlocksOf(off)
        invariant off <= MAXFILE * BSIZE && old(freeblock) + BlocksOf(off) <= |blocks|
        invariant forall j :: 0 <= j < |inodes| && j != i ==> inodes[j] == old(inodes)[j] && Content(View(), j) == old(Content(View(), j))
      {
        var n := if |data| - off < BSIZE then |data| - off else BSIZE;
        BlocksGrow(off + n, |data|);
        assert inodes[i].size == off;
        ok := IAppend(i, data[off..off + n]);
        if !ok {
          return;
        }
        assert data[..off + n] == data[..off] + data[off..off + n];
        off := off + n;
      }
      assert data[..off] == data;
      ok := true;
    }

    /** The root directory's size is rounded up, past its last block if it was a whole number of blocks: then, and only
        then, the image does not meet the kernel's invariant. */
    method RoundSize(i: nat)
      requires Valid() && Tidy(View()) && i < |inodes|
      modifies `inodes
      ensures |inodes| == |old(inodes)| && (Wf(View()) <==> old(inodes[i].size) % BSIZE != 0)
      ensures Wf(View()) ==> NoLeak(View())
      ensures Content(View(), i) == old(Content(View(), i)) + seq(BSIZE - old(inodes[i].size) % BSIZE, _ => 0)
      ensures forall j :: 0 <= j < |inodes| && j != i ==> Content(View(), j) == old(Content(View(), j))
    {
      ghost var f := View();
      var off := inodes[i].size;
      off := (off / BSIZE + 1) * BSIZE;
      Rounded(f, i);
      inodes := inodes[i := inodes[i].(size := off)];
      assert View() == Resized(f, i, off);
    }

    /** Inode `i` is a file with the bytes of `s` and one link. */
    ghost predicate IsFile(i: nat, s: Source)
      reads this
    {
      i < |inodes| == |types| == |nlinks| && Content(View(), i) == s.data && types[i] == T_FILE && nlinks[i] == 1
    }

    /** The root directory lists `files`, each in an inode of its own. */
    ghost predicate Lists(files: seq<Source>)
      reads this
    {
      && |inodes| == |types| == |nlinks| && |files| + 2 <= |inodes|
      && Content(View(), ROOTINO) == RootBytes(files) && types[ROOTINO] == T_DIR && nlinks[ROOTINO] == 1
      && forall k :: 0 <= k < |files| ==> IsFile(k + 2, files[k])
    }

    /** The root directory with "." and "..", and nothing else. */
    method MakeRoot() returns (ok: bool)
      requires Valid() && Tidy(View()) && Fresh() && freeinode == ROOTINO && 2 <= |inodes| == |types| == |nlinks|
      modifies this
      ensures ok <==> old(freeblock) + BlocksOf(RECORD * 2) <= |old(blocks)|
      ensures ok ==> Valid() && Tidy(View()) && Fresh() && freeinode == 2 && |inodes| == |old(inodes)| && Lists([])
      ensures ok ==> freeblock == old(freeblock) + BlocksOf(RECORD * 2) && |blocks| == |old(blocks)|
    {
      hide NoLeak, Wf, Tidy;
      var root := IAlloc(T_DIR);
      assert Content(View(), ROOTINO) == [];
      ok := IAppend(root, Dirent(root, Padded(DOT)));
      if ok {
        ok := IAppend(root, Dirent(root, Padded(DOTDOT)));
      }
      assert [] + Dirent(ROOTINO, Padded(DOT)) + Dirent(ROOTINO, Padded(DOTDOT)) == RootBytes([]);
    }

    /** One file: an inode, its name in the root directory, its bytes. */
    method AddFile(s: Source, ghost before: seq<Source>) returns (ok: bool)
      requires Valid() && Tidy(View()) && Fresh() && |before| + 2 == freeinode < |inodes| && |s.name| == DIRSIZ
      requires Named(before) && Lists(before)
      modifies this
      ensures ok <==> && RECORD * (|before| + 3) <= MAXFILE * BSIZE && |s.data| <= MAXFILE * BSIZE
                      && old(freeblock) + FileTakes(s, |before|) <= |old(blocks)|
      ensures ok ==> Valid() && Tidy(View()) && Fresh() && |before| + 3 == freeinode && |inodes| == |old(inodes)|
      ensures ok ==> freeblock == old(freeblock) + FileTakes(s, |before|) && |blocks| == |old(blocks)| && Lists(before + [s])
    {
      hide NoLeak, Wf, Tidy, Content, RootBytes, BlocksOf;
      RootSize(before);
      BlocksGrow(RECORD * (|before| + 2), RECORD * (|before| + 3));
      var inum := IAlloc(T_FILE);
      EmptyContent(View(), inum);
      ok := IAppend(ROOTINO, Dirent(inum, s.name));
      if !ok {
        return;
      }
      EmptyContent(View(), inum);
      ok := AppendFile(inum, s.data);
      RootAdds(before, s);
    }

    /** mkfs: the root directory lists the files, each file has its bytes; and the kernel's invariant holds of the image
        exactly when the directory is not a whole number of blocks.  It succeeds exactly when no file is too large,
        the blocks suffice and one bitmap block covers those in use. */
    method Build(files: seq<Source>) returns (ok: bool)
      requires Valid() && Tidy(View()) && Fresh() && freeinode == ROOTINO && |files| + 2 <= |inodes| == |types| == |nlinks|
      requires Named(files)
      modifies this
      ensures ok <==> && NoneTooLarge(files) && old(freeblock) + ImageTakes(files) <= |old(blocks)|
                      && old(freeblock) + ImageTakes(files) < BPB
      ensures ok ==> |inodes| == |old(inodes)| && Content(View(), ROOTINO) ==
                       RootBytes(files) + seq(BSIZE - |RootBytes(files)| % BSIZE, _ => 0)
      ensures ok ==> |types| == |nlinks| == |inodes| && types[ROOTINO] == T_DIR && nlinks[ROOTINO] == 1
      ensures ok ==> forall k :: 0 <= k < |files| ==> IsFile(k + 2, files[k])
      ensures ok ==> (Wf(View()) <==> (|files| + 2) % (BSIZE / RECORD) != 0) && (Wf(View()) ==> NoLeak(View()))
    {
      hide NoLeak, Wf, Tidy, Content, RootBytes, BlocksOf, ImageTakes, NoneTooLarge, FileTakes;
      TakesFirst(files);
      ok := MakeRoot();
      if !ok {
        return;
      }
      for k := 0 to |files|
        invariant Valid() && Tidy(View()) && Fresh() && freeinode == k + 2 && |inodes| == |old(inodes)| && |blocks| == |old(blocks)|
        invariant Lists(files[..k]) && NoneTooLarge(files[..k])
        invariant freeblock == old(freeblock) + ImageTakes(files[..k])
      {
        TakesNext(files, k);
        ok := AddFile(files[k], files[..k]);
        if !ok {
          return;
        }
      }
      assert files[..|files|] == files;
      RootSize(files);
      WholeBlocks(|files| + 2);
      RoundSize(ROOTINO);
      ok := freeblock < BPB;                  // balloc
    }
  }

  /** An image of mkfs's own size with thirty empty files: they and the dot names fill the root directory's block, and
      its size then covers a block that it does not have. */
  method ThirtyFiles() returns (im: Image)
    ensures !Wf(im.View()) && ROOTINO < |im.inodes| && |Content(im.View(), ROOTINO)| == 2 * BSIZE
  {
    hide NoLeak, Wf, Tidy, Content, RootBytes, BlocksOf, Slot;
    im := new Image(1000, 200, 59);
    var files := seq(30, _ => Source(seq(DIRSIZ, _ => 65), []));
    EmptyFilesTake(files);
    RootSize(files);
    var ok := im.Build(files);
  }

  const T_DIR := 1
  const T_FILE := 2
  const ROOTINO := 1

  /** A file to put into the image, its name filled up with zeros. */
  datatype Source = Source(name: seq<int>, data: seq<int>)

  /** A name as a record holds it. */
  function Padded(name: string): (r: seq<int>)
    ensures |r| == DIRSIZ
  {
    seq(DIRSIZ, i requires i >= 0 => if i < |name| then name[i] as int else 0)
  }

  function Dirent(inum: nat, name: seq<int>): seq<int> { [inum % 256, inum / 256 % 256] + name }

  /** The records of the root directory. */
  function RootBytes(files: seq<Source>): seq<int> {
    if files == [] then Dirent(ROOTINO, Padded(DOT)) + Dirent(ROOTINO, Padded(DOTDOT))
    else RootBytes(files[..|files| - 1]) + Dirent(|files| + 1, files[|files| - 1].name)
  }

  ghost predicate Named(files: seq<Source>) { forall k :: 0 <= k < |files| ==> |files[k].name| == DIRSIZ }

  /** No file, nor the root directory, is larger than a file can be. */
  ghost predicate NoneTooLarge(files: seq<Source>) {
    RECORD * (|files| + 2) <= MAXFILE * BSIZE && forall k :: 0 <= k < |files| ==> |files[k].data| <= MAXFILE * BSIZE
  }

  /** Blocks that a file takes after `n` others: what the root directory grows by, and its own. */
  function FileTakes(s: Source, n: nat): int {
    BlocksOf(RECORD * (n + 3)) - BlocksOf(RECORD * (n + 2)) + BlocksOf(|s.data|)
  }

  /** Blocks that the root directory and all files take. */
  function ImageTakes(files: seq<Source>): int {
    if files == [] then BlocksOf(RECORD * 2)
    else ImageTakes(files[..|files| - 1]) + FileTakes(files[|files| - 1], |files| - 1)
  }

  lemma TakesFirst(files: seq<Source>)
    ensures files[..0] == [] && ImageTakes([]) == BlocksOf(RECORD * 2) && ImageTakes(files) >= BlocksOf(RECORD * 2)
    ensures NoneTooLarge([])
  {
    TakesMore(files, 0);
    assert files[..0] == [];
  }

  lemma {:induction false} TakesMore(files: seq<Source>, k: nat)
    requires k <= |files|
    ensures ImageTakes(files[..k]) <= ImageTakes(files)
    decreases |files| - k
  {
    hide BlocksOf;
    if k < |files| {
      TakesMore(files, k + 1);
      BlocksGrow(RECORD * (k + 2), RECORD * (k + 3));
      assert files[..k + 1][..k] == files[..k];
    } else {
      assert files[..k] == files;
    }
  }

  lemma TakesNext(files: seq<Source>, k: nat)
    requires k < |files| && Named(files)
    ensures files[..k] + [files[k]] == files[..k + 1] && Named(files[..k])
    ensures ImageTakes(files[..k + 1]) == ImageTakes(files[..k]) + FileTakes(files[k], k) <= ImageTakes(files)
    ensures NoneTooLarge(files) ==> NoneTooLarge(files[..k + 1])
    ensures NoneTooLarge(files[..k]) && RECORD * (k + 3) <= MAXFILE * BSIZE && |files[k].data| <= MAXFILE * BSIZE ==>
              NoneTooLarge(files[..k + 1])
    ensures NoneTooLarge(files) ==> RECORD * (k + 3) <= MAXFILE * BSIZE && |files[k].data| <= MAXFILE * BSIZE
  {
    hide BlocksOf;
    TakesMore(files, k + 1);
    assert files[..k + 1][..k] == files[..k];
  }

  lemma {:induction false} EmptyFilesTake(files: seq<Source>)
    requires |files| <= 30 && forall k :: 0 <= k < |files| ==> files[k].data == []
    ensures NoneTooLarge(files) && ImageTakes(files) == 1
    decreases |files|
  {
    if files != [] {
      EmptyFilesTake(files[..|files| - 1]);
    }
  }

  lemma NoBlocks()
    ensures BlocksOf(0) == 0
  {
  }

  lemma RootAdds(files: seq<Source>, s: Source)
    ensures RootBytes(files + [s]) == RootBytes(files) + Dirent(|files| + 2, s.name)
  {
    assert (files + [s])[..|files|] == files;
  }

  lemma {:induction false} RootSize(files: seq<Source>)
    requires Named(files)
    ensures |RootBytes(files)| == RECORD * (|files| + 2)
    decreases |files|
  {
    if files != [] {
      RootSize(files[..|files| - 1]);
    }
  }

  lemma WholeBlocks(n: nat)
    ensures (RECORD * n) % BSIZE == 0 <==> n % (BSIZE / RECORD) == 0
  {
  }

  lemma EmptyContent(f: FS, i: nat)
    requires i < |f.inodes| && f.inodes[i].size == 0
    ensures Content(f, i) == []
  {
  }

  lemma Rounded(f: FS, i: nat)
    requires Wf(f) && NoLeak(f) && Tidy(f) && i < |f.inodes|
    ensures var size := f.inodes[i].size;
            var h := Resized(f, i, (size / BSIZE + 1) * BSIZE);
            && (Wf(h) <==> size % BSIZE != 0) && (Wf(h) ==> NoLeak(h)) && |h.inodes| == |f.inodes|
            && Content(h, i) == Content(f, i) + seq(BSIZE - size % BSIZE, _ => 0)
            && forall j :: 0 <= j < |f.inodes| && j != i ==> Content(h, j) == Content(f, j)
  {
    hide Slot, ByteAt, NoLeak;
    var size := f.inodes[i].size;
    var full := (size / BSIZE + 1) * BSIZE;
    var h := Resized(f, i, full);
    ResizedSlots(f, i, full);
    assert EndsAt(f, i, size);
    if size % BSIZE != 0 {
      assert MappedTo(f, i, full);
      ResizedWf(f, i, full);
    } else {
      var bn := size / BSIZE;
      assert bn * BSIZE == size < full;
      assert Slot(h, i, SlotOf(bn)) == 0;
    }
  }

  /** In iappend's loop: `tot` bytes are there, and every file ends where it should. */
  ghost predicate Appending(f: FS, g: FS, i: nat, src: seq<int>, tot: nat) {
    && i < |f.inodes| && Progress(f, g, i, f.inodes[i].size, src, tot)
    && forall j :: 0 <= j < |f.inodes| ==> EndsAt(g, j, if j == i then f.inodes[i].size + tot else f.inodes[j].size)
  }

  lemma AppendingStart(f: FS, i: nat, src: seq<int>)
    requires Wf(f) && NoLeak(f) && Tidy(f) && i < |f.inodes|
    ensures Appending(f, f, i, src, 0)
  {
    hide Slot, ByteAt, NoLeak, Wf, EndsAt;
    ProgressStart(f, i, f.inodes[i].size, src);
  }

  lemma AppendingFacts(f: FS, g: FS, i: nat, src: seq<int>, tot: nat)
    requires Appending(f, g, i, src, tot)
    ensures Wf(g) && NoLeak(g) && i < |g.inodes| == |f.inodes| && g.inodes[i].size == f.inodes[i].size
  {
    hide Slot, ByteAt, NoLeak, EndsAt;
  }

  lemma AppendingStep(f: FS, g: FS, h: FS, i: nat, src: seq<int>, tot: nat, m: nat, x: nat)
    requires Wf(f) && Appending(f, g, i, src, tot) && tot < |src|
    requires m == ChunkLen(f.inodes[i].size + tot, |src| - tot)
    requires BmapOk(g, h, i, (f.inodes[i].size + tot) / BSIZE, x)
    requires Slot(g, i, SlotOf((f.inodes[i].size + tot) / BSIZE)) == 0 ==> x < |h.blocks| && h.blocks[x] == Zeroes()
    ensures x < |h.blocks| && |h.blocks[x]| == BSIZE && h.meta <= x
    ensures Appending(f, PutBlock(h, x, Patch(h.blocks[x], (f.inodes[i].size + tot) % BSIZE, src[tot..tot + m])), i, src, tot + m)
  {
    hide Slot, ByteAt, NoLeak, EndsAt, Patch, ChunkOk, Mapped, ChunkLen;
    AppendingFacts(f, g, i, src, tot);
    var pos, data := f.inodes[i].size + tot, src[tot..tot + m];
    ChunkWritten(g, h, i, pos, data, x);
    var t := PutBlock(h, x, Patch(h.blocks[x], pos % BSIZE, data));
    ProgressStep(f, g, t, i, f.inodes[i].size, src, tot, m);
    forall j | 0 <= j < |f.inodes| ensures EndsAt(t, j, if j == i then pos + m else f.inodes[j].size) {
      RoundKeepsEnds(g, h, i, pos, data, x, j, if j == i then pos else f.inodes[j].size);
    }
  }

  /** One round of the loop takes what the file's size says. */
  lemma AppendTakes(f: FS, g: FS, i: nat, src: seq<int>, tot: nat, m: nat)
    requires Appending(f, g, i, src, tot) && tot < |src| && m == ChunkLen(f.inodes[i].size + tot, |src| - tot)
    requires (tot == 0 || (f.inodes[i].size + tot) % BSIZE == 0) && f.inodes[i].size + tot < MAXFILE * BSIZE
    ensures var pos := f.inodes[i].size + tot;
            |Missing(g, i, pos / BSIZE, pos / BSIZE + 1)| == BlocksOf(pos + m) - BlocksOf(pos)
  {
    hide Slot, ByteAt, Missing, NoLeak;
    var pos := f.inodes[i].size + tot;
    MissingOne(g, i, pos / BSIZE);
    assert EndsAt(g, i, pos);
    if pos % BSIZE != 0 {
      assert pos / BSIZE * BSIZE < pos;
      assert Slot(g, i, SlotOf(pos / BSIZE)) != 0;
      NoIndirectWords(g, i, SlotOf(pos / BSIZE));
    } else {
      assert pos / BSIZE * BSIZE == pos;
      if pos > NDIRECT * BSIZE {
        assert (pos / BSIZE - 1) * BSIZE < pos;
        assert Slot(g, i, SlotOf(pos / BSIZE - 1)) != 0;
        NoIndirectWords(g, i, SlotOf(pos / BSIZE - 1));
      }
    }
    NextBlocks(pos, m);
  }

  /** How iappend computes the length and the place of a chunk. */
  lemma AppendChunk(pos: nat, rest: nat)
    requires rest > 0
    ensures var left := (pos / BSIZE + 1) * BSIZE - pos;
            var m := if rest < left then rest else left;
            && m == ChunkLen(pos, rest) && 0 < m <= rest && pos - pos / BSIZE * BSIZE == pos % BSIZE
            && (m < rest ==> (pos + m) % BSIZE == 0) && (pos / BSIZE < MAXFILE ==> pos + m <= MAXFILE * BSIZE)
  {
  }

  lemma NextBlocks(pos: nat, m: nat)
    requires 0 < m && pos % BSIZE + m <= BSIZE
    ensures BlocksOf(pos + m) - BlocksOf(pos) ==
              if pos % BSIZE != 0 then 0 else if pos == NDIRECT * BSIZE then 2 else 1
  {
  }

  lemma BlocksGrow(n: nat, n': nat)
    requires n <= n'
    ensures BlocksOf(n) <= BlocksOf(n')
  {
  }

  /** After the loop, the new size. */
  lemma Appended(f: FS, g: FS, i: nat, src: seq<int>)
    requires Wf(f) && Appending(f, g, i, src, |src|) && f.inodes[i].size + |src| <= MAXFILE * BSIZE
    ensures |g.inodes| == |f.inodes|
    ensures var h := Resized(g, i, f.inodes[i].size + |src|);
            && Wf(h) && NoLeak(h) && Tidy(h) && |h.inodes| == |f.inodes| && Content(h, i) == Content(f, i) + src
            && forall j :: 0 <= j < |f.inodes| && j != i ==> h.inodes[j] == f.inodes[j] && Content(h, j) == Content(f, j)
  {
    hide Slot, ByteAt, NoLeak, Wf, Content;
    AppendingFacts(f, g, i, src, |src|);
    var size := f.inodes[i].size;
    WriteIsSplice(f, g, i, size, src);
    SpliceAtEnd(Content(f, i), src);
    ResizedSlots(g, i, size + |src|);
  }

  lemma SpliceAtEnd(s: seq<int>, data: seq<int>)
    ensures Splice(s, |s|, data) == s + data
  {
  }

  /** Without an indirect block there are no indirect slots. */
  lemma NoWords(f: FS, i: nat, s: nat)
    requires Shape(f) && i < |f.inodes| && f.inodes[i].addrs[NDIRECT] == 0 && s > NDIRECT
    ensures Slot(f, i, s) == 0
  {
  }

  lemma IndirectSlot(f: FS, i: nat, j: nat)
    requires Shape(f) && i < |f.inodes| && j < NINDIRECT && 0 < f.inodes[i].addrs[NDIRECT] < |f.blocks|
    ensures Slot(f, i, NDIRECT + 1 + j) == Word(f.blocks[f.inodes[i].addrs[NDIRECT]], j)
  {
  }

  lemma Present(f: FS, i: nat, bn: nat, n: nat)
    requires Wf(f) && NoLeak(f) && Slot(f, i, SlotOf(bn)) != 0 && n <= |f.used|
    requires forall b :: 0 <= b < |f.used| ==> f.used[b] == (b < n)
    ensures BmapOk(f, f, i, bn, Slot(f, i, SlotOf(bn))) && 0 < Slot(f, i, SlotOf(bn)) < n
  {
    hide Slot;
    BmapPresent(f, i, bn);
  }

  /** The word's block was allocated, and before it perhaps the indirect block. */
  lemma MappedWord(f: FS, g: FS, h: FS, i: nat, fbn: nat, x: nat)
    requires Wf(f) && NoLeak(f) && Wf(g) && NoLeak(g) && NDIRECT <= fbn && Allocated(g, h, i, SlotOf(fbn), x)
    requires g == f || (exists r: nat :: Allocated(f, g, i, NDIRECT, r) && Slot(f, i, NDIRECT) == 0 && Slot(f, i, SlotOf(fbn)) == 0)
    requires Slot(g, i, SlotOf(fbn)) == 0 && Slot(g, i, NDIRECT) != 0 && fbn < MAXFILE
    ensures BmapOk(f, h, i, fbn, x)
  {
    hide Slot;
    if g == f {
      BmapAllocated(f, h, i, fbn, x);
    } else {
      var r: nat :| Allocated(f, g, i, NDIRECT, r) && Slot(f, i, NDIRECT) == 0 && Slot(f, i, SlotOf(fbn)) == 0;
      BmapAllocatedTwice(f, g, h, i, fbn, r, x);
    }
  }

  /** A new indirect block is empty, so a word that is there was there before. */
  lemma WordWasThere(f: FS, g: FS, i: nat, fbn: nat)
    requires NDIRECT <= fbn && Slot(g, i, SlotOf(fbn)) != 0
    requires g == f || (exists r: nat :: Allocated(f, g, i, NDIRECT, r) && Slot(f, i, NDIRECT) == 0 && Slot(f, i, SlotOf(fbn)) == 0)
    ensures g == f
  {
    hide Slot;
  }

  lemma IndirectInUse(f: FS, i: nat, n: nat)
    requires Wf(f) && i < |f.inodes| && f.inodes[i].addrs[NDIRECT] != 0 && n <= |f.used|
    requires forall b :: 0 <= b < |f.used| ==> f.used[b] == (b < n)
    ensures f.meta <= f.inodes[i].addrs[NDIRECT] < n && |f.blocks[f.inodes[i].addrs[NDIRECT]]| == BSIZE
  {
    assert Slot(f, i, NDIRECT) == f.inodes[i].addrs[NDIRECT];
  }

  lemma BlankSlots(f: FS)
    requires forall i :: 0 <= i < |f.inodes| ==> f.inodes[i] == Inode(0, NoAddrs())
    ensures forall i, s :: Slot(f, i, s) == 0
  {
  }

  lemma BlankOk(f: FS)
    requires Shape(f) && f.meta <= |f.used| && (forall i, s :: Slot(f, i, s) == 0)
    requires forall b :: 0 <= b < |f.used| ==> f.used[b] == (b < f.meta)
    requires forall i :: 0 <= i < |f.inodes| ==> f.inodes[i].size == 0
    ensures Wf(f) && NoLeak(f) && Tidy(f)
  {
    hide Slot;
  }
}
