/** Writing through an open file: filewrite cuts a write into operations that fit the log budget. */
module File {
  import opened Params
  import opened FileBlocks
  import opened Sets
  import opened FileSys

  // Most bytes written in one operation.
  const CHUNK := (MAXOPBLOCKS - 1 - 1 - 2) / 2 * 512

  /** A chunk at any offset stays within the budget of one operation. */
  lemma ChunkFitsBudget(off: nat, n: nat)
    requires n <= CHUNK
    ensures WriteBudget(off, n) <= MAXOPBLOCKS
  {
    assert CHUNK == 3 * BSIZE;
    if off % BSIZE == 0 {
      assert Touched(off, n) <= 3;
    } else {
      assert Touched(off, n) <= 4;
    }
  }

  /** Where the blocks of 9 to 12 of a file are: the last two direct blocks and the first indirect one are missing. */
  ghost predicate EndsInNine(f: FS, i: nat) {
    && Wf(f) && NoLeak(f) && i < |f.inodes| && f.inodes[i].size == 9 * BSIZE + 1
    && Slot(f, i, 10) == 0 && Slot(f, i, 11) == 0 && Slot(f, i, NDIRECT) == 0
  }

  /** Four blocks are free, in four different bitmap blocks. */
  ghost predicate FourFree(f: FS, a: seq<int>) {
    && |a| == 4 && FreeSet(f) == {a[0], a[1], a[2], a[3]}
    && 0 <= a[0] / BPB < a[1] / BPB < a[2] / BPB < a[3] / BPB
  }

  lemma TenMissing(f: FS, i: nat)
    requires EndsInNine(f, i)
    ensures Missing(f, i, 9, 13) == {10, 11, NDIRECT, 13} && Slot(f, i, 9) != 0
  {
    NoIndirectWords(f, i, 13);
    hide Slot;
    assert Slot(f, i, SlotOf(9)) != 0;
    assert forall t :: Wants(9, 13, t) <==> t in {9, 10, 11, NDIRECT, 13};
  }

  /** What is then in the five slots: different blocks, four of which are the free ones. */
  lemma TenLogged(start: nat, f: FS, g: FS, i: nat, a: seq<int>, inode: int)
    requires EndsInNine(f, i) && FourFree(f, a) && Grew(f, g, i, 9, 13) && Wf(g) && g.meta == f.meta
    requires 0 <= inode < start && start + a[3] / BPB < f.meta
    ensures |LoggedBy(start, f, g, i, 9, 13) + {inode}| == MAXOPBLOCKS
  {
    hide Slot, Grew, Wf, FreeSet, Missing, NoLeak, LoggedBy;
    TenMissing(f, i);
    FourIsFour(f, a);
    AllTaken(f, g, i);
    FiveSlots(f, g, i);
    TenParts(start, f, g, i, a);
    FourMaps(start, a);
    var data := {Slot(g, i, 9), Slot(g, i, 10), Slot(g, i, 11), Slot(g, i, 13), Slot(g, i, NDIRECT)};
    var maps := {a[0] / BPB + start, a[1] / BPB + start, a[2] / BPB + start, a[3] / BPB + start};
    assert |data| == 5;
    assert forall x :: x in data ==> x >= f.meta;
    assert forall x :: x in maps ==> start <= x < f.meta;
    Disjoint(data, maps, inode);
  }

  lemma Disjoint(data: set<int>, maps: set<int>, inode: int)
    requires data !! maps && inode !in data && inode !in maps
    ensures |data + maps + {inode}| == |data| + |maps| + 1
  {
  }

  lemma FourMaps(start: nat, a: seq<int>)
    requires |a| == 4 && 0 <= a[0] / BPB < a[1] / BPB < a[2] / BPB < a[3] / BPB
    ensures |{a[0] / BPB + start, a[1] / BPB + start, a[2] / BPB + start, a[3] / BPB + start}| == 4
  {
  }

  lemma TenParts(start: nat, f: FS, g: FS, i: nat, a: seq<int>)
    requires |a| == 4 && FreeSet(f) == {a[0], a[1], a[2], a[3]} && FreeSet(g) == {} && Grew(f, g, i, 9, 13) && 13 in Missing(f, i, 9, 13)
    ensures LoggedBy(start, f, g, i, 9, 13) ==
              {Slot(g, i, 9), Slot(g, i, 10), Slot(g, i, 11), Slot(g, i, 13), Slot(g, i, NDIRECT)}
              + {a[0] / BPB + start, a[1] / BPB + start, a[2] / BPB + start, a[3] / BPB + start}
  {
    hide Slot, Grew, FreeSet, Missing;
    NewIsWritten(f, g, i, 9, 13);
    assert NewBlocks(f, g) == {a[0], a[1], a[2], a[3]};
    FourBitmaps(start, a);
    FourData(g, i);
    assert SetsWord(f, i, 9, 13);
    hide NewBlocks, Bitmaps, DataOf, SetsWord;
  }

  lemma FourBitmaps(start: nat, a: seq<int>)
    requires |a| == 4
    ensures Bitmaps(start, {a[0], a[1], a[2], a[3]})
            == {a[0] / BPB + start, a[1] / BPB + start, a[2] / BPB + start, a[3] / BPB + start}
  {
  }

  lemma FourData(g: FS, i: nat)
    ensures DataOf(g, i, 9, 13) == {Slot(g, i, 9), Slot(g, i, 10), Slot(g, i, 11), Slot(g, i, 13)}
  {
    hide Slot;
    assert SlotOf(9) == 9 && SlotOf(10) == 10 && SlotOf(11) == 11 && SlotOf(12) == 13;
    forall x | x in DataOf(g, i, 9, 13) ensures x in {Slot(g, i, 9), Slot(g, i, 10), Slot(g, i, 11), Slot(g, i, 13)} {
      var bn :| 9 <= bn < 13 && x == Slot(g, i, SlotOf(bn));
      assert bn == 9 || bn == 10 || bn == 11 || bn == 12;
    }
  }

  lemma AllTaken(f: FS, g: FS, i: nat)
    requires Grew(f, g, i, 9, 13) && |Missing(f, i, 9, 13)| == 4 && Space(f) == 4
    ensures FreeSet(g) == {}
  {
    hide Slot, Missing;
  }

  lemma FiveSlots(f: FS, g: FS, i: nat)
    requires Grew(f, g, i, 9, 13) && Wf(g) && Missing(f, i, 9, 13) == {10, 11, NDIRECT, 13} && Slot(f, i, 9) != 0
    ensures forall t :: t in {9, 10, 11, NDIRECT, 13} ==> Slot(g, i, t) >= g.meta
    ensures forall t, u :: t in {9, 10, 11, NDIRECT, 13} && u in {9, 10, 11, NDIRECT, 13} && t != u ==> Slot(g, i, t) != Slot(g, i, u)
  {
    hide Slot, FreeSet;
    assert forall t :: t in {9, 10, 11, NDIRECT, 13} ==> Wants(9, 13, t);
  }

  /** The budget is used up: a chunk that starts inside block 9, when the free blocks are in four different bitmap
      blocks, logs ten blocks. */
  method WriteTen(fs: FileSystem, i: nat, src: seq<int>, ghost a: seq<int>) returns (ok: bool, r: int)
    requires fs.Valid() && EndsInNine(fs.Fs(), i) && FourFree(fs.Fs(), a) && |src| == CHUNK && fs.logged == {}
    requires 0 <= fs.IBlock(i) < fs.bmapstart && fs.bmapstart + a[3] / BPB < fs.meta
    modifies fs
    ensures ok && r == CHUNK && |fs.logged| == MAXOPBLOCKS
  {
    hide Slot, NoLeak, Content, Splice, Wf, Grew, LoggedBy;
    ghost var f := fs.Fs();
    TenMissing(f, i);
    FourIsFour(f, a);
    ok, r := fs.Writei(i, src, 9 * BSIZE + 1);
    assert EndBlock(9 * BSIZE + 1, CHUNK) == 13 && (9 * BSIZE + 1) / BSIZE == 9;
    TenLogged(fs.bmapstart, f, fs.Fs(), i, a, fs.IBlock(i));
  }

  lemma FourIsFour(f: FS, a: seq<int>)
    requires FourFree(f, a)
    ensures Space(f) == 4
  {
  }

  function Min(a: int, b: int): int { if a < b then a else b }

  /** The file after `data` was written at `off`, if a write may start there. */
  function Overlay(s: seq<int>, off: nat, data: seq<int>): (r: seq<int>)
    ensures off > |s| ==> r == s
    ensures off <= |s| ==> off + |data| <= |r|
  {
    if off <= |s| then Splice(s, off, data) else s
  }

  /** Writing the next piece where the last one ended is writing both at once. */
  lemma OverlayAppend(s: seq<int>, off: nat, src: seq<int>, k: nat, n: nat)
    requires k + n <= |src| && off + k <= |Overlay(s, off, src[..k])|
    requires off <= |s|
    ensures Splice(Overlay(s, off, src[..k]), off + k, src[k..k + n]) == Overlay(s, off, src[..k + n])
  {
    var first := Splice(s, off, src[..k]);
    var both := Splice(first, off + k, src[k..k + n]);
    var once := Splice(s, off, src[..k + n]);
    hide Splice;
    forall i | 0 <= i < |both| ensures i < |once| && both[i] == once[i] {
      SpliceAt(first, off + k, src[k..k + n], i);
      SpliceAt(s, off, src[..k + n], i);
      if i < |first| {
        SpliceAt(s, off, src[..k], i);
      }
    }
  }

  lemma SpliceAt(s: seq<int>, off: nat, data: seq<int>, i: nat)
    requires off <= |s| && i < |Splice(s, off, data)|
    ensures off <= i < off + |data| ==> Splice(s, off, data)[i] == data[i - off]
    ensures !(off <= i < off + |data|) ==> i < |s| && Splice(s, off, data)[i] == s[i]
  {
  }

  lemma OverlayNothing(s: seq<int>, off: nat)
    ensures Overlay(s, off, []) == s
  {
  }

  /** How many bytes filewrite writes before it meets the largest file. */
  function Written(size: nat, off: nat, n: nat): nat {
    if n == 0 || off > size then 0
    else if off + n <= MAXFILE * BSIZE then n
    else if off > MAXFILE * BSIZE then 0
    else WholeChunks(MAXFILE * BSIZE - off)
  }

  predicate ManyChunks(k: nat) { k % CHUNK == 0 }

  /** Bytes of the whole chunks in `room`. */
  function WholeChunks(room: nat): nat { room / CHUNK * CHUNK }

  /** Another chunk after `k` bytes fits into the file, or ends the write. */
  lemma WrittenMore(size: nat, off: nat, n: nat, k: nat, n1: nat)
    requires off <= size && k < n && ManyChunks(k) && n1 == Min(n - k, CHUNK) && off + k <= MAXFILE * BSIZE
    ensures off + k + n1 <= MAXFILE * BSIZE ==> k + n1 <= Written(size, off, n)
    ensures off + k + n1 <= MAXFILE * BSIZE && k + n1 < n ==> ManyChunks(k + n1)
    ensures off + k + n1 > MAXFILE * BSIZE ==> k == Written(size, off, n)
  {
    hide WholeChunks, ManyChunks;
    var room := MAXFILE * BSIZE - off;
    ChunksIn(room, k);
    if n1 == CHUNK && off + k + n1 <= MAXFILE * BSIZE {
      ChunksIn(room, k + n1);
    }
  }

  lemma ChunksIn(room: nat, k: nat)
    requires ManyChunks(k) && k <= room
    ensures ManyChunks(k + CHUNK) && k <= WholeChunks(room) <= room && (room < k + CHUNK ==> WholeChunks(room) == k)
  {
    assert CHUNK == 1536;
    var q := k / CHUNK;
    assert k == 1536 * q;
    assert q <= room / 1536;
  }

  /** The blocks of two pieces that follow each other. */
  lemma PiecesMeet(off: nat, k: nat, n: nat)
    requires n > 0
    ensures off / BSIZE <= (off + k) / BSIZE <= EndBlock(off, k) <= EndBlock(off, k + n) == EndBlock(off + k, n)
  {
  }

  /** A piece that finds too few free blocks shows that the whole write does. */
  lemma PieceStops(f: FS, g: FS, i: nat, off: nat, k: nat, n: nat, all: nat)
    requires n > 0 && k + n <= all && Grew(f, g, i, off / BSIZE, EndBlock(off, k))
    requires |Missing(g, i, (off + k) / BSIZE, EndBlock(off + k, n))| > Space(g)
    ensures |Missing(f, i, off / BSIZE, EndBlock(off, all))| > Space(f)
  {
    hide Slot, Missing, FreeSet, EndBlock;
    PiecesMeet(off, k, n);
    MoreTouched(off, k + n, all);
    MissingJoin(f, g, i, off / BSIZE, EndBlock(off, k), (off + k) / BSIZE, EndBlock(off + k, n));
    MissingGrows(f, i, off / BSIZE, EndBlock(off, k + n), EndBlock(off, all));
  }

  lemma PieceGrew(f: FS, g: FS, h: FS, i: nat, off: nat, k: nat, n: nat)
    requires n > 0 && Grew(f, g, i, off / BSIZE, EndBlock(off, k)) && Grew(g, h, i, (off + k) / BSIZE, EndBlock(off + k, n))
    ensures Grew(f, h, i, off / BSIZE, EndBlock(off, k + n))
  {
    hide Grew, EndBlock;
    PiecesMeet(off, k, n);
    GrewJoin(f, g, h, i, off / BSIZE, EndBlock(off, k), (off + k) / BSIZE, EndBlock(off + k, n));
  }

  lemma GrewEnough(f: FS, g: FS, i: nat, lo: nat, hi: nat)
    requires Grew(f, g, i, lo, hi)
    ensures |Missing(f, i, lo, hi)| <= Space(f)
  {
    hide Slot, Missing, FreeSet;
  }

  /** `g` is `f` after the first `k` bytes of `src` were written at `off`. */
  ghost predicate PieceDone(f: FS, g: FS, i: nat, off: nat, src: seq<int>, k: nat) {
    && i < |f.inodes| == |g.inodes| && k <= |src| && Content(g, i) == Overlay(Content(f, i), off, src[..k])
    && Grew(f, g, i, off / BSIZE, EndBlock(off, k))
    && forall j :: 0 <= j < |f.inodes| && j != i ==> g.inodes[j] == f.inodes[j] && Content(g, j) == Content(f, j)
  }

  lemma PieceFirst(f: FS, i: nat, off: nat, src: seq<int>)
    requires i < |f.inodes|
    ensures PieceDone(f, f, i, off, src, 0)
  {
    hide Content, Overlay;
    OverlayNothing(Content(f, i), off);
    GrewNothing(f, i, off / BSIZE);
    assert src[..0] == [];
  }

  lemma PieceSize(f: FS, g: FS, i: nat, off: nat, src: seq<int>, k: nat)
    requires PieceDone(f, g, i, off, src, k) && (k > 0 ==> off <= |Content(f, i)|)
    ensures (off <= |Content(f, i)| ==> off + k <= g.inodes[i].size) && (off > |Content(f, i)| ==> g.inodes[i].size == |Content(f, i)|)
  {
    hide Grew;
  }

  lemma PieceNext(f: FS, g: FS, h: FS, i: nat, off: nat, src: seq<int>, k: nat, n: nat)
    requires PieceDone(f, g, i, off, src, k) && n > 0 && k + n <= |src| && off <= |Content(f, i)| && off + k <= g.inodes[i].size
    requires |h.inodes| == |g.inodes| && Grew(g, h, i, (off + k) / BSIZE, EndBlock(off + k, n))
    requires Content(h, i) == Splice(Content(g, i), off + k, src[k..k + n])
    requires forall j :: 0 <= j < |h.inodes| && j != i ==> h.inodes[j] == g.inodes[j] && Content(h, j) == Content(g, j)
    ensures PieceDone(f, h, i, off, src, k + n)
  {
    hide Content, Overlay, Splice, Grew, EndBlock;
    OverlayAppend(Content(f, i), off, src, k, n);
    PieceGrew(f, g, h, i, off, k, n);
  }

  /** One operation of filewrite: the next chunk of `src` after `k` bytes.  It is turned away exactly when the file does
      not reach so far or would become too large. */
  method WritePiece(fs: FileSystem, i: nat, src: seq<int>, off: nat, k: nat, n1: nat, ghost f: FS) returns (ok: bool, r: int)
    requires fs.Valid() && i < |fs.inodes| && |src| < 0x8000_0000 && off < 0x8000_0000
    requires k < |src| && n1 == Min(|src| - k, CHUNK)
    requires PieceDone(f, fs.Fs(), i, off, src, k) && (k > 0 ==> off <= f.inodes[i].size)
    modifies fs
    ensures ok ==> fs.Valid() && |fs.logged| <= MAXOPBLOCKS
    ensures off > f.inodes[i].size || off + k + n1 > MAXFILE * BSIZE ==> ok && r == -1 && fs.Fs() == old(fs.Fs())
    ensures off <= f.inodes[i].size && off + k + n1 <= MAXFILE * BSIZE ==>
              && (ok <==> |Missing(old(fs.Fs()), i, (off + k) / BSIZE, EndBlock(off + k, n1))| <= Space(old(fs.Fs())))
              && (ok ==> r == n1 && PieceDone(f, fs.Fs(), i, off, src, k + n1))
  {
    hide Slot, NoLeak, Wf, Content, Splice, WriteBudget, Missing, Space, Grew, LoggedBy, EndBlock, PieceDone;
    fs.logged := {};  // begin_op
    ghost var g := fs.Fs();
    PieceSize(f, g, i, off, src, k);
    ok, r := fs.Writei(i, src[k..k + n1], off + k);
    ChunkFitsBudget(off + k, n1);
    if ok && r >= 0 {
      PieceLogged(fs, g, i, off + k, n1, fs.logged);
      PieceNext(f, g, fs.Fs(), i, off, src, k, n1);
    }
  }

  /** filewrite on an inode, from file offset `off`.  `done` bytes are written, all of them exactly if
      they fit; each operation logs at most MAXOPBLOCKS blocks.  It halts exactly when fewer blocks are free than the
      blocks of those bytes lack. */
  method FileWrite(fs: FileSystem, i: nat, src: seq<int>, off: nat)
    returns (ok: bool, r: int, off': nat, ghost done: nat, ghost ops: seq<set<int>>)
    requires fs.Valid() && i < |fs.inodes| && |src| < 0x8000_0000 && off < 0x8000_0000
    modifies fs
    ensures forall k :: 0 <= k < |ops| ==> |ops[k]| <= MAXOPBLOCKS
    ensures var w := Written(old(fs.inodes[i].size), off, |src|);
            ok <==> |Missing(old(fs.Fs()), i, off / BSIZE, EndBlock(off, w))| <= Space(old(fs.Fs()))
    ensures ok ==>
              && fs.Valid() && |fs.inodes| == |old(fs.inodes)| && done <= |src| && off' == off + done
              && done == Written(old(fs.inodes[i].size), off, |src|)
              && r == (if done == |src| then |src| else -1)
              && (done == |src| <==> src == [] || (off <= old(fs.inodes[i].size) && off + |src| <= MAXFILE * BSIZE))
              && Content(fs.Fs(), i) == Overlay(old(Content(fs.Fs(), i)), off, src[..done])
              && (forall j :: 0 <= j < |fs.inodes| && j != i ==>
                    fs.inodes[j] == old(fs.inodes)[j] && Content(fs.Fs(), j) == Content(old(fs.Fs()), j))
  {
    hide Slot, NoLeak, Wf, Content, Missing, Space, Grew, EndBlock, Written, PieceDone;
    ghost var f, size := fs.Fs(), fs.inodes[i].size;
    ok, r, off', done, ops := true, 0, off, 0, [];
    PieceFirst(f, i, off, src);
    WrittenBounds(size, off, |src|);
    SizeBound(f, i);
    var k := 0;
    while k < |src|
      invariant 0 <= k <= |src| && ok && done == k && off' == off + k
      invariant fs.Valid() && PieceDone(f, fs.Fs(), i, off, src, k)
      invariant k > 0 ==> off <= size && off + k <= MAXFILE * BSIZE && k <= Written(size, off, |src|)
      invariant k < |src| ==> ManyChunks(k)
      invariant forall o :: 0 <= o < |ops| ==> |ops[o]| <= MAXOPBLOCKS
    {
      var n1 := Min(|src| - k, CHUNK);
      ghost var g := fs.Fs();
      PieceEnough(f, g, i, off, src, k);
      if off <= size {
        WrittenMore(size, off, |src|, k, n1);
      }
      ok, r := WritePiece(fs, i, src, off, k, n1, f);
      if !ok {
        PieceStops(f, g, i, off, k, n1, Written(size, off, |src|));
        return;
      }
      ops := ops + [fs.logged];  // end_op
      if r < 0 {
        break;
      }
      k, off', done := k + n1, off' + n1, done + n1;
    }
    assert k == Written(size, off, |src|);
    PieceEnough(f, fs.Fs(), i, off, src, k);
    r := if k == |src| then |src| else -1;
  }

  lemma PieceEnough(f: FS, g: FS, i: nat, off: nat, src: seq<int>, k: nat)
    requires PieceDone(f, g, i, off, src, k)
    ensures Grew(f, g, i, off / BSIZE, EndBlock(off, k)) && |Missing(f, i, off / BSIZE, EndBlock(off, k))| <= Space(f)
    ensures |g.inodes| == |f.inodes| && Content(g, i) == Overlay(Content(f, i), off, src[..k])
    ensures forall j :: 0 <= j < |f.inodes| && j != i ==> g.inodes[j] == f.inodes[j] && Content(g, j) == Content(f, j)
  {
    hide Content, Overlay, Missing, EndBlock;
    GrewEnough(f, g, i, off / BSIZE, EndBlock(off, k));
  }

  lemma WrittenBounds(size: nat, off: nat, n: nat)
    ensures Written(size, off, n) <= n && (n == 0 || off > size ==> Written(size, off, n) == 0)
    ensures off <= size && off + n <= MAXFILE * BSIZE ==> Written(size, off, n) == n
  {
  }

  /** What one operation logs. */
  lemma PieceLogged(fs: FileSystem, g: FS, i: nat, off: nat, n: nat, logged: set<int>)
    requires Wf(g) && i < |g.inodes| && off <= g.inodes[i].size && Grew(g, fs.Fs(), i, off / BSIZE, EndBlock(off, n))
    requires logged <= LoggedBy(fs.bmapstart, g, fs.Fs(), i, off / BSIZE, EndBlock(off, n)) + {fs.IBlock(i)}
    ensures |logged| <= WriteBudget(off, n)
  {
    hide Slot, LoggedBy, EndBlock, Grew, Wf;
    LogBound(fs.bmapstart, g, fs.Fs(), i, off, n, fs.IBlock(i));
    SubsetSize(logged, LoggedBy(fs.bmapstart, g, fs.Fs(), i, off / BSIZE, EndBlock(off, n)) + {fs.IBlock(i)});
  }
}
