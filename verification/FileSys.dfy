/** Block allocation, block maps and file contents, as fs.c updates them in place.

    `ok == false` in a result stands for a panic that halts the kernel (no free block, file block out
    of range).  `logged` collects the blocks passed to log_write. */
module FileSys {
  import opened FileBlocks
  import opened Sets

  const BPB := BSIZE * 8
  const IPB := 8

  /** What a successful bmap leaves: the block is mapped with exactly the blocks it lacked, and nothing is leaked. */
  ghost predicate BmapOk(f: FS, g: FS, i: nat, bn: nat, addr: int) {
    Mapped(f, g, i, bn, addr) && NoLeak(g) && Grew(f, g, i, bn, bn + 1)
  }

  lemma BmapPresent(f: FS, i: nat, bn: nat)
    requires Wf(f) && NoLeak(f) && Slot(f, i, SlotOf(bn)) != 0
    ensures BmapOk(f, f, i, bn, Slot(f, i, SlotOf(bn))) && Missing(f, i, bn, bn + 1) == {}
  {
    GrewPresent(f, i, bn);
    hide Slot;
  }

  lemma BmapAllocated(f: FS, g: FS, i: nat, bn: nat, a: nat)
    requires Wf(f) && NoLeak(f) && Slot(f, i, SlotOf(bn)) == 0 && Allocated(f, g, i, SlotOf(bn), a) && bn < MAXFILE
    requires bn >= NDIRECT ==> Slot(f, i, NDIRECT) != 0
    ensures BmapOk(f, g, i, bn, a)
  {
    AllocatedMaps(f, g, i, bn, a);
    AllocatedNoLeak(f, g, i, SlotOf(bn), a);
    GrewOne(f, g, i, bn, a);
  }

  lemma BmapAllocatedTwice(f: FS, g: FS, h: FS, i: nat, bn: nat, r: nat, a: nat)
    requires Wf(f) && NoLeak(g) && NDIRECT <= bn < MAXFILE
    requires Slot(f, i, NDIRECT) == 0 && Slot(f, i, SlotOf(bn)) == 0
    requires Allocated(f, g, i, NDIRECT, r) && Allocated(g, h, i, SlotOf(bn), a)
    ensures BmapOk(f, h, i, bn, a)
  {
    AllocatedTwiceMaps(f, g, h, i, bn, r, a);
    SecondStillMissing(f, g, i, bn, r);
    AllocatedNoLeak(g, h, i, SlotOf(bn), a);
    GrewTwo(f, g, h, i, bn, r, a);
  }

  lemma SecondStillMissing(f: FS, g: FS, i: nat, bn: nat, r: nat)
    requires Allocated(f, g, i, NDIRECT, r) && NDIRECT <= bn && Slot(f, i, SlotOf(bn)) == 0
    ensures Slot(g, i, SlotOf(bn)) == 0
  {
    hide Slot;
  }

  // ---- What is logged ----

  /** Blocks that were free. */
  ghost function NewBlocks(f: FS, g: FS): set<int> { FreeSet(f) - FreeSet(g) }

  /** The bitmap blocks of these blocks; the bitmap starts at block `start`. */
  ghost function Bitmaps(start: nat, blocks: set<int>): set<int> { set a | a in blocks :: a / BPB + start }

  /** Mapping the file blocks sets a word of the indirect block. */
  ghost predicate SetsWord(f: FS, i: int, lo: nat, hi: nat) { exists t :: t in Missing(f, i, lo, hi) && t > NDIRECT }

  /** What mapping file blocks `lo` up to `hi` logs: the blocks taken, their bitmap blocks, and the indirect block if one
      of its words is set. */
  ghost function MapLog(start: nat, f: FS, g: FS, i: int, lo: nat, hi: nat): set<int> {
    NewBlocks(f, g) + Bitmaps(start, NewBlocks(f, g)) + if SetsWord(f, i, lo, hi) then {Slot(g, i, NDIRECT)} else {}
  }

  ghost function DataOf(g: FS, i: int, lo: nat, hi: nat): set<int> {
    set bn | lo <= bn < hi :: Slot(g, i, SlotOf(bn))
  }

  /** What writing to them logs: the same and the blocks themselves. */
  ghost function LoggedBy(start: nat, f: FS, g: FS, i: int, lo: nat, hi: nat): set<int> {
    MapLog(start, f, g, i, lo, hi) + DataOf(g, i, lo, hi)
  }

  lemma MapLogNone(start: nat, f: FS, i: int, bn: nat)
    requires Slot(f, i, SlotOf(bn)) != 0
    ensures MapLog(start, f, f, i, bn, bn + 1) == {}
  {
    GrewPresent(f, i, bn);
    hide Slot, Missing;
    assert NewBlocks(f, f) == {};
  }

  lemma MapLogOne(start: nat, f: FS, g: FS, i: nat, bn: nat, a: nat)
    requires Allocated(f, g, i, SlotOf(bn), a) && Slot(f, i, SlotOf(bn)) == 0 && bn < MAXFILE
    requires bn >= NDIRECT ==> Slot(f, i, NDIRECT) != 0
    ensures MapLog(start, f, g, i, bn, bn + 1) ==
              {a, a / BPB + start} + if bn < NDIRECT then {} else {Slot(f, i, NDIRECT)}
  {
    hide Slot, FreeSet, Wf, Missing, SetsWord, Bitmaps;
    AllocatedFree(f, g, i, SlotOf(bn), a);
    assert NewBlocks(f, g) == {a};
    OneBitmap(start, a);
    SetsOne(f, i, bn);
    assert bn >= NDIRECT ==> Slot(g, i, NDIRECT) == Slot(f, i, NDIRECT);
  }

  lemma OneBitmap(start: nat, a: int)
    ensures Bitmaps(start, {a}) == {a / BPB + start}
  {
  }

  lemma SetsOne(f: FS, i: int, bn: nat)
    requires bn < MAXFILE && Slot(f, i, SlotOf(bn)) == 0
    ensures SetsWord(f, i, bn, bn + 1) <==> bn >= NDIRECT
  {
    hide Slot;
    OneWants(bn);
    assert SlotOf(bn) in Missing(f, i, bn, bn + 1);
  }

  lemma MapLogTwo(start: nat, f: FS, g: FS, h: FS, i: nat, bn: nat, r: nat, a: nat)
    requires Allocated(f, g, i, NDIRECT, r) && Allocated(g, h, i, SlotOf(bn), a) && NDIRECT <= bn < MAXFILE
    requires Slot(f, i, NDIRECT) == 0 && Slot(f, i, SlotOf(bn)) == 0
    ensures MapLog(start, f, h, i, bn, bn + 1) == {r, r / BPB + start} + {a, a / BPB + start}
  {
    hide Slot, FreeSet, Wf, Missing, SetsWord;
    AllocatedFree(f, g, i, NDIRECT, r);
    AllocatedFree(g, h, i, SlotOf(bn), a);
    assert NewBlocks(f, h) == {r, a};
    assert Bitmaps(start, {r, a}) == {r / BPB + start, a / BPB + start};
    SetsOne(f, i, bn);
    assert Slot(h, i, NDIRECT) == r;
  }

  lemma LoggedNothing(start: nat, f: FS, i: int, lo: nat)
    ensures LoggedBy(start, f, f, i, lo, lo) == {}
  {
    hide Slot;
    assert NewBlocks(f, f) == {};
    assert Missing(f, i, lo, lo) == {};
  }

  lemma NewJoin(start: nat, f: FS, g: FS, h: FS)
    requires FreeSet(h) <= FreeSet(g) <= FreeSet(f)
    ensures NewBlocks(f, h) == NewBlocks(f, g) + NewBlocks(g, h)
    ensures Bitmaps(start, NewBlocks(f, h)) == Bitmaps(start, NewBlocks(f, g)) + Bitmaps(start, NewBlocks(g, h))
  {
    hide FreeSet;
    var x, y := NewBlocks(f, g), NewBlocks(g, h);
    assert NewBlocks(f, h) == x + y;
    assert Bitmaps(start, x + y) == Bitmaps(start, x) + Bitmaps(start, y);
  }

  lemma DataJoin(g: FS, h: FS, i: int, lo: nat, hi: nat)
    requires lo <= hi <= MAXFILE && Grew(g, h, i, hi, hi + 1) && forall t :: Wants(lo, hi, t) ==> Slot(g, i, t) != 0
    ensures DataOf(h, i, lo, hi + 1) == DataOf(g, i, lo, hi) + DataOf(h, i, hi, hi + 1)
  {
    hide Slot, FreeSet, Missing;
    forall bn | lo <= bn < hi ensures Slot(h, i, SlotOf(bn)) == Slot(g, i, SlotOf(bn)) {
      assert Wants(lo, hi, SlotOf(bn));
    }
  }

  lemma WordJoin(f: FS, g: FS, h: FS, i: int, lo: nat, hi: nat)
    requires lo <= hi && Grew(f, g, i, lo, hi) && Grew(g, h, i, hi, hi + 1)
    ensures SetsWord(f, i, lo, hi + 1) <==> SetsWord(f, i, lo, hi) || SetsWord(g, i, hi, hi + 1)
    ensures SetsWord(f, i, lo, hi) ==> Slot(h, i, NDIRECT) == Slot(g, i, NDIRECT)
  {
    hide Slot, FreeSet, Missing, Wants;
    MissingJoin(f, g, i, lo, hi, hi, hi + 1);
    if t :| t in Missing(f, i, lo, hi) && t > NDIRECT {
      WordWants(f, i, lo, hi, t);
      assert Slot(g, i, NDIRECT) != 0;
    }
  }

  lemma WordWants(f: FS, i: int, lo: nat, hi: nat, t: int)
    requires t in Missing(f, i, lo, hi) && t > NDIRECT
    ensures Wants(lo, hi, NDIRECT)
  {
    hide Slot;
  }

  lemma LoggedJoin(start: nat, f: FS, g: FS, h: FS, i: int, lo: nat, hi: nat)
    requires lo <= hi <= MAXFILE && Grew(f, g, i, lo, hi) && Grew(g, h, i, hi, hi + 1)
    ensures LoggedBy(start, f, h, i, lo, hi + 1) == LoggedBy(start, f, g, i, lo, hi) + LoggedBy(start, g, h, i, hi, hi + 1)
  {
    NewJoin(start, f, g, h);
    DataJoin(g, h, i, lo, hi);
    WordJoin(f, g, h, i, lo, hi);
    hide Slot, FreeSet, Missing, SetsWord, Bitmaps, NewBlocks, DataOf, Grew;
  }

  /** Only slots and the bitmap count. */
  lemma LoggedSame(start: nat, f: FS, g: FS, h: FS, i: int, lo: nat, hi: nat)
    requires SameSlots(g, h) && h.used == g.used
    ensures LoggedBy(start, f, h, i, lo, hi) == LoggedBy(start, f, g, i, lo, hi)
  {
    hide Slot, Missing;
    assert FreeSet(h) == FreeSet(g);
    assert DataOf(h, i, lo, hi) == DataOf(g, i, lo, hi);
  }

  // ---- Writing one block's worth, and the loop over blocks ----

  /** `data` went into the block at `off` of inode `i`, and no other mapped byte changed. */
  ghost predicate ChunkOk(f: FS, h: FS, i: nat, off: nat, data: seq<int>) {
    var s := SlotOf(off / BSIZE);
    && Wf(h) && NoLeak(h) && SameSizes(f, h)
    && (forall j :: 0 <= j < |f.inodes| && j != i ==> h.inodes[j] == f.inodes[j])
    && Slot(h, i, s) != 0
    && (Slot(f, i, s) != 0 ==> h.inodes == f.inodes)
    && (forall j, t :: Slot(f, j, t) != 0 ==> Slot(h, j, t) == Slot(f, j, t))
    && (forall k :: 0 <= k < |data| ==> ByteAt(h, i, off + k) == data[k])
    && (forall j, o: nat :: Slot(f, j, SlotOf(o / BSIZE)) != 0 && !(j == i && off <= o < off + |data|) ==>
          ByteAt(h, j, o) == ByteAt(f, j, o))
  }

  lemma ChunkWritten(f: FS, g: FS, i: nat, off: nat, data: seq<int>, addr: int)
    requires Wf(f) && off % BSIZE + |data| <= BSIZE
    requires BmapOk(f, g, i, off / BSIZE, addr)
    ensures g.meta <= addr < |g.blocks| && |g.blocks[addr]| == BSIZE
    ensures var h := PutBlock(g, addr, Patch(g.blocks[addr], off % BSIZE, data));
            ChunkOk(f, h, i, off, data) && Grew(f, h, i, off / BSIZE, off / BSIZE + 1) && SameSlots(g, h) && h.used == g.used
  {
    hide Slot, ByteAt, Patch, NoLeak, Mapped, Wf, Grew;
    var bn := off / BSIZE;
    ChunkMapped(f, g, i, bn, addr);
    PatchBytes(g, i, bn, off % BSIZE, data);
    var h := PutBlock(g, addr, Patch(g.blocks[addr], off % BSIZE, data));
    ChunkBytes(f, g, h, i, bn, addr, off, data);
    ChunkNoLeak(g, h);
    GrewSame(f, g, h, i, bn, bn + 1);
  }

  /** What copying needs to know of the mapping. */
  lemma ChunkMapped(f: FS, g: FS, i: nat, bn: nat, addr: int)
    requires Mapped(f, g, i, bn, addr)
    ensures Wf(g) && SameSizes(f, g) && addr == Slot(g, i, SlotOf(bn)) != 0 && g.meta <= addr < |g.blocks| && |g.blocks[addr]| == BSIZE
    ensures forall j :: 0 <= j < |f.inodes| && j != i ==> g.inodes[j] == f.inodes[j]
    ensures forall j, t :: Slot(f, j, t) != 0 ==> Slot(g, j, t) == Slot(f, j, t)
    ensures Slot(f, i, SlotOf(bn)) != 0 ==> g == f
  {
    hide Slot;
  }

  lemma ChunkNoLeak(g: FS, h: FS)
    requires NoLeak(g) && SameSlots(g, h) && h.used == g.used && h.meta == g.meta
    ensures NoLeak(h)
  {
    hide Slot;
    forall a | h.meta <= a < |h.used| && h.used[a] ensures Held(h, a) {
      var i, s :| Slot(g, i, s) == a;
      assert Slot(h, i, s) == a;
    }
  }

  lemma ChunkBytes(f: FS, g: FS, h: FS, i: nat, bn: nat, addr: int, off: nat, data: seq<int>)
    requires Wf(f) && Mapped(f, g, i, bn, addr)
    requires forall j, o: nat :: !(j == i && off <= o < off + |data|) ==> ByteAt(h, j, o) == ByteAt(g, j, o)
    ensures forall j, o: nat :: Slot(f, j, SlotOf(o / BSIZE)) != 0 && !(j == i && off <= o < off + |data|) ==>
              ByteAt(h, j, o) == ByteAt(f, j, o)
  {
    forall j, o: nat | Slot(f, j, SlotOf(o / BSIZE)) != 0 && !(j == i && off <= o < off + |data|)
      ensures ByteAt(h, j, o) == ByteAt(f, j, o)
    {
      MappedBytes(f, g, i, bn, addr, j, o);
    }
  }

  /** Every block of inode `i` below byte `limit` is mapped. */
  ghost predicate MappedTo(f: FS, i: nat, limit: nat) {
    forall bn :: 0 <= bn && bn * BSIZE < limit ==> Slot(f, i, SlotOf(bn)) != 0
  }

  /** writei at `off` has copied the first `tot` bytes of `src`. */
  ghost predicate Progress(f: FS, g: FS, i: nat, off: nat, src: seq<int>, tot: nat)
    requires i < |f.inodes|
  {
    && tot <= |src|
    && Wf(g) && NoLeak(g) && SameSizes(f, g)
    && (forall j :: 0 <= j < |f.inodes| && j != i ==> g.inodes[j] == f.inodes[j])
    && MappedTo(g, i, off + tot)
    && (forall s :: Slot(f, i, s) != 0 ==> Slot(g, i, s) != 0)
    && (g.inodes[i] == f.inodes[i] || off + tot > f.inodes[i].size)
    && (forall k :: 0 <= k < tot ==> ByteAt(g, i, off + k) == src[k])
    && (forall j, o: nat :: 0 <= j < |f.inodes| && o < f.inodes[j].size && !(j == i && off <= o < off + tot) ==>
          ByteAt(g, j, o) == ByteAt(f, j, o))
  }

  lemma ProgressStart(f: FS, i: nat, off: nat, src: seq<int>)
    requires Wf(f) && NoLeak(f) && i < |f.inodes| && off <= f.inodes[i].size
    ensures Progress(f, f, i, off, src, 0)
  {
    hide Slot, ByteAt;
  }

  lemma ProgressFacts(f: FS, g: FS, i: nat, off: nat, src: seq<int>, tot: nat)
    requires i < |f.inodes| && Progress(f, g, i, off, src, tot)
    ensures Wf(g) && NoLeak(g) && |g.inodes| == |f.inodes| && g.inodes[i].size == f.inodes[i].size
    ensures Slot(f, i, NDIRECT) != 0 ==> Slot(g, i, NDIRECT) != 0
  {
    hide Slot, ByteAt, NoLeak, Wf;
  }

  lemma ProgressBytes(f: FS, g: FS, h: FS, i: nat, off: nat, src: seq<int>, tot: nat, m: nat)
    requires Wf(f) && i < |f.inodes| && off <= f.inodes[i].size && Progress(f, g, i, off, src, tot)
    requires tot + m <= |src| && ChunkOk(g, h, i, off + tot, src[tot..tot + m])
    ensures forall k :: 0 <= k < tot + m ==> ByteAt(h, i, off + k) == src[k]
    ensures forall j, o: nat :: 0 <= j < |f.inodes| && o < f.inodes[j].size && !(j == i && off <= o < off + tot + m) ==>
          ByteAt(h, j, o) == ByteAt(f, j, o)
  {
    hide Slot, ByteAt, NoLeak;
    forall k | 0 <= k < tot + m ensures ByteAt(h, i, off + k) == src[k] {
      if k < tot {
        assert (off + k) / BSIZE * BSIZE < off + tot;
      } else {
        assert src[k] == src[tot..tot + m][k - tot];
        assert off + k == off + tot + (k - tot);
      }
    }
    forall j, o: nat | 0 <= j < |f.inodes| && o < f.inodes[j].size && !(j == i && off <= o < off + tot + m)
      ensures ByteAt(h, j, o) == ByteAt(f, j, o)
    {
      assert o / BSIZE * BSIZE < g.inodes[j].size;
    }
  }

  lemma ProgressMapped(g: FS, h: FS, i: nat, pos: nat, m: nat)
    requires MappedTo(g, i, pos) && pos % BSIZE + m <= BSIZE
    requires Slot(h, i, SlotOf(pos / BSIZE)) != 0
    requires forall j, t :: Slot(g, j, t) != 0 ==> Slot(h, j, t) == Slot(g, j, t)
    ensures MappedTo(h, i, pos + m)
  {
    hide Slot;
    forall bn | 0 <= bn && bn * BSIZE < pos + m ensures Slot(h, i, SlotOf(bn)) != 0 {
      if bn * BSIZE >= pos {
        assert bn == pos / BSIZE;
      }
    }
  }

  /** A block is allocated only past the end of the file. */
  lemma ProgressInode(f: FS, g: FS, h: FS, i: nat, off: nat, src: seq<int>, tot: nat, m: nat)
    requires Wf(f) && i < |f.inodes| && Progress(f, g, i, off, src, tot)
    requires 0 < m && tot + m <= |src| && ChunkOk(g, h, i, off + tot, src[tot..tot + m])
    ensures h.inodes[i] == f.inodes[i] || off + tot + m > f.inodes[i].size
  {
    hide Slot, ByteAt, NoLeak;
    var bn := (off + tot) / BSIZE;
    if bn * BSIZE < g.inodes[i].size {
      assert Slot(g, i, SlotOf(bn)) != 0;
    }
  }

  lemma ProgressStep(f: FS, g: FS, h: FS, i: nat, off: nat, src: seq<int>, tot: nat, m: nat)
    requires Wf(f) && i < |f.inodes| && off <= f.inodes[i].size && Progress(f, g, i, off, src, tot)
    requires 0 < m && tot + m <= |src| && (off + tot) % BSIZE + m <= BSIZE
    requires ChunkOk(g, h, i, off + tot, src[tot..tot + m])
    ensures Progress(f, h, i, off, src, tot + m)
  {
    hide Slot, ByteAt, NoLeak, Wf, MappedTo;
    ProgressBytes(f, g, h, i, off, src, tot, m);
    ProgressMapped(g, h, i, off + tot, m);
    ProgressInode(f, g, h, i, off, src, tot, m);
  }

  /** How much of the remaining `rest` bytes fits into the block at `pos`. */
  function ChunkLen(pos: nat, rest: nat): (m: nat)
    ensures m <= rest && pos % BSIZE + m <= BSIZE
    ensures rest > 0 ==> m > 0
    ensures m == rest || (pos + m) % BSIZE == 0
  {
    if rest < BSIZE - pos % BSIZE then rest else BSIZE - pos % BSIZE
  }

  // ---- Blocks logged by writei ----

  /** Number of blocks that `tot` bytes from `off` on touch. */
  function Touched(off: nat, tot: nat): nat {
    if tot == 0 then 0 else (off + tot - 1) / BSIZE - off / BSIZE + 1
  }

  /** The number of blocks that `n` bytes from `off` on touch tells where they end. */
  function EndBlock(off: nat, n: nat): nat { off / BSIZE + Touched(off, n) }

  lemma TouchedStep(off: nat, tot: nat, m: nat)
    requires 0 < m && (off + tot) % BSIZE + m <= BSIZE && (tot == 0 || (off + tot) % BSIZE == 0)
    ensures EndBlock(off, tot + m) == EndBlock(off, tot) + 1 && EndBlock(off, tot) == (off + tot) / BSIZE
  {
  }

  lemma EndInFile(off: nat, n: nat)
    requires off + n <= MAXFILE * BSIZE
    ensures off / BSIZE <= EndBlock(off, n) <= MAXFILE
  {
  }

  /** Most blocks a write logs: a data and a bitmap block for each block touched (the first needs no
      bitmap block if it is partly there), the indirect block and its bitmap block, and the inode. */
  function WriteBudget(off: nat, n: nat): int {
    2 * Touched(off, n) + 3 - if n > 0 && off % BSIZE != 0 then 1 else 0
  }

  lemma {:induction false} DataSize(g: FS, i: int, lo: nat, hi: nat)
    requires lo <= hi
    ensures |DataOf(g, i, lo, hi)| <= hi - lo
    decreases hi - lo
  {
    hide Slot;
    if lo < hi {
      DataSize(g, i, lo, hi - 1);
      assert DataOf(g, i, lo, hi) == DataOf(g, i, lo, hi - 1) + {Slot(g, i, SlotOf(hi - 1))};
    } else {
      assert DataOf(g, i, lo, hi) == {};
    }
  }

  lemma {:induction false} BitmapsSize(start: nat, taken: set<int>)
    ensures |Bitmaps(start, taken)| <= |taken|
    decreases |taken|
  {
    if a :| a in taken {
      BitmapsSize(start, taken - {a});
      var rest := Bitmaps(start, taken - {a});
      forall x | x in Bitmaps(start, taken) ensures x in rest + {a / BPB + start} {
        var b :| b in taken && x == b / BPB + start;
        assert b == a || b in taken - {a};
      }
      SubsetSize(Bitmaps(start, taken), rest + {a / BPB + start});
    } else {
      assert Bitmaps(start, taken) == {};
    }
  }

  function SlotsOf(lo: nat, hi: nat): set<int> { set bn | lo <= bn < hi :: SlotOf(bn) }

  lemma {:induction false} SlotsSize(lo: nat, hi: nat)
    requires lo <= hi
    ensures |SlotsOf(lo, hi)| <= hi - lo
    decreases hi - lo
  {
    if lo < hi {
      SlotsSize(lo, hi - 1);
      assert SlotsOf(lo, hi) == SlotsOf(lo, hi - 1) + {SlotOf(hi - 1)};
    } else {
      assert SlotsOf(lo, hi) == {};
    }
  }

  /** A wanted slot is the slot of a file block, or the indirect block's. */
  lemma WantsBlock(lo: nat, hi: nat, t: int) returns (bn: nat)
    requires Wants(lo, hi, t) && t != NDIRECT
    ensures lo <= bn < hi && t == SlotOf(bn)
  {
    bn := if t < NDIRECT then t else t - 1;
  }

  /** At most one slot for each file block besides the indirect block's, and none for a first block that is there. */
  lemma MissingSize(f: FS, i: int, lo: nat, hi: nat)
    requires lo <= hi
    ensures |Missing(f, i, lo, hi)| <= hi - lo + 1 - if lo < hi && Slot(f, i, SlotOf(lo)) != 0 then 1 else 0
  {
    hide Slot;
    var first := if lo < hi && Slot(f, i, SlotOf(lo)) != 0 then lo + 1 else lo;
    var all := SlotsOf(first, hi) + {NDIRECT};
    SlotsSize(first, hi);
    forall t | t in Missing(f, i, lo, hi) ensures t in all {
      if t != NDIRECT {
        var bn := WantsBlock(lo, hi, t);
      }
    }
    SubsetSize(Missing(f, i, lo, hi), all);
  }

  /** Each new block is a data block that is written or the indirect block. */
  lemma NewIsWritten(f: FS, g: FS, i: int, lo: nat, hi: nat)
    requires Grew(f, g, i, lo, hi)
    ensures NewBlocks(f, g) <= DataOf(g, i, lo, hi) + {Slot(g, i, NDIRECT)} && |NewBlocks(f, g)| == |Missing(f, i, lo, hi)|
  {
    hide Slot, FreeSet, Missing;
    forall a | a in NewBlocks(f, g) ensures a in DataOf(g, i, lo, hi) + {Slot(g, i, NDIRECT)} {
      assert InSlots(g, i, lo, hi, a);
      var t :| Wants(lo, hi, t) && Slot(g, i, t) == a;
      if t != NDIRECT {
        var bn := WantsBlock(lo, hi, t);
      }
    }
    assert FreeSet(f) == FreeSet(g) + NewBlocks(f, g);
  }

  /** A write and its inode stay within the budget. */
  lemma LogBound(start: nat, f: FS, g: FS, i: nat, off: nat, n: nat, inode: int)
    requires Wf(f) && i < |f.inodes| && off <= f.inodes[i].size && Grew(f, g, i, off / BSIZE, EndBlock(off, n))
    ensures |LoggedBy(start, f, g, i, off / BSIZE, EndBlock(off, n)) + {inode}| <= WriteBudget(off, n)
  {
    var lo, hi := off / BSIZE, EndBlock(off, n);
    if off % BSIZE != 0 {
      FirstBlockPresent(f, i, off);
    }
    NewIsWritten(f, g, i, lo, hi);
    hide Slot, FreeSet, Missing, Touched, NewBlocks, Wf, Grew;
    LogSize(start, f, g, i, lo, hi, inode);
    assert n > 0 ==> lo < hi by { SomeTouched(off, n); }
  }

  lemma SomeTouched(off: nat, n: nat)
    ensures n > 0 ==> Touched(off, n) > 0
  {
  }

  lemma LogSize(start: nat, f: FS, g: FS, i: nat, lo: nat, hi: nat, inode: int)
    requires lo <= hi && NewBlocks(f, g) <= DataOf(g, i, lo, hi) + {Slot(g, i, NDIRECT)}
    requires |NewBlocks(f, g)| == |Missing(f, i, lo, hi)|
    ensures |LoggedBy(start, f, g, i, lo, hi) + {inode}| <= 2 * (hi - lo) + 3 - if lo < hi && Slot(f, i, SlotOf(lo)) != 0 then 1 else 0
  {
    hide Slot, FreeSet, Missing, NewBlocks, DataOf, Bitmaps, SetsWord;
    var data, maps, ind := DataOf(g, i, lo, hi), Bitmaps(start, NewBlocks(f, g)), {Slot(g, i, NDIRECT)};
    DataSize(g, i, lo, hi);
    BitmapsSize(start, NewBlocks(f, g));
    MissingSize(f, i, lo, hi);
    var all := data + maps + ind + {inode};
    SubsetSize(LoggedBy(start, f, g, i, lo, hi) + {inode}, all);
    assert |data + maps| <= |data| + |maps|;
    assert |data + maps + ind| <= |data + maps| + 1;
  }

  lemma FirstBlockPresent(g: FS, i: nat, off: nat)
    requires Wf(g) && i < |g.inodes| && off <= g.inodes[i].size && off % BSIZE != 0
    ensures Slot(g, i, SlotOf(off / BSIZE)) != 0
  {
    hide Slot;
    assert off / BSIZE * BSIZE < g.inodes[i].size;
  }

  /** Exactly the slots of file blocks `lo` up to `hi` are filled, and exactly what that takes is logged. */
  ghost predicate Recorded(start: nat, f: FS, g: FS, i: nat, lo: nat, hi: nat, logged0: set<int>, logged1: set<int>) {
    Grew(f, g, i, lo, hi) && logged1 == logged0 + LoggedBy(start, f, g, i, lo, hi)
  }

  lemma RecordedStep(start: nat, f: FS, g: FS, h: FS, i: nat, lo: nat, hi: nat,
                     logged0: set<int>, logged1: set<int>, logged2: set<int>)
    requires lo <= hi <= MAXFILE && Recorded(start, f, g, i, lo, hi, logged0, logged1)
    requires Recorded(start, g, h, i, hi, hi + 1, logged1, logged2)
    ensures Recorded(start, f, h, i, lo, hi + 1, logged0, logged2)
  {
    hide Slot, Grew, LoggedBy;
    GrewJoin(f, g, h, i, lo, hi, hi, hi + 1);
    LoggedJoin(start, f, g, h, i, lo, hi);
  }

  /** The state of writei's loop. */
  ghost predicate Copying(start: nat, f: FS, g: FS, i: nat, off: nat, src: seq<int>, tot: nat,
                          logged0: set<int>, logged1: set<int>)
    requires i < |f.inodes|
  {
    && Progress(f, g, i, off, src, tot) && Recorded(start, f, g, i, off / BSIZE, EndBlock(off, tot), logged0, logged1)
    && (tot == |src| || tot == 0 || (off + tot) % BSIZE == 0)
  }

  lemma CopyingStart(start: nat, f: FS, i: nat, off: nat, src: seq<int>, logged: set<int>)
    requires Wf(f) && NoLeak(f) && i < |f.inodes| && off <= f.inodes[i].size
    ensures Copying(start, f, f, i, off, src, 0, logged, logged)
  {
    ProgressStart(f, i, off, src);
    GrewNothing(f, i, off / BSIZE);
    LoggedNothing(start, f, i, off / BSIZE);
    hide Slot, ByteAt, NoLeak, Wf, Progress, Grew, LoggedBy;
  }

  lemma CopyingStep(start: nat, f: FS, g: FS, h: FS, i: nat, off: nat, src: seq<int>, tot: nat, m: nat,
                    logged0: set<int>, logged1: set<int>, logged2: set<int>)
    requires Wf(f) && i < |f.inodes| && off <= f.inodes[i].size && tot < |src| && off + |src| <= MAXFILE * BSIZE
    requires Copying(start, f, g, i, off, src, tot, logged0, logged1)
    requires m == ChunkLen(off + tot, |src| - tot)
    requires ChunkOk(g, h, i, off + tot, src[tot..tot + m])
    requires Recorded(start, g, h, i, (off + tot) / BSIZE, (off + tot) / BSIZE + 1, logged1, logged2)
    ensures Copying(start, f, h, i, off, src, tot + m, logged0, logged2)
    ensures Wf(h) && NoLeak(h) && |h.inodes| == |f.inodes|
  {
    hide Slot, ByteAt, NoLeak, Wf, Progress, ChunkOk, ChunkLen, Recorded, EndBlock;
    var lo, hi := off / BSIZE, EndBlock(off, tot);
    TouchedStep(off, tot, m);
    EndInFile(off, tot);
    ProgressStep(f, g, h, i, off, src, tot, m);
    RecordedStep(start, f, g, h, i, lo, hi, logged0, logged1, logged2);
    ProgressFacts(f, h, i, off, src, tot + m);
  }

  /** The next chunk lacks more blocks than there are: so does the whole write. */
  lemma CopyingStops(start: nat, f: FS, g: FS, i: nat, off: nat, src: seq<int>, tot: nat, logged0: set<int>, logged1: set<int>)
    requires i < |f.inodes| && tot < |src| && Copying(start, f, g, i, off, src, tot, logged0, logged1)
    requires |Missing(g, i, (off + tot) / BSIZE, (off + tot) / BSIZE + 1)| > Space(g)
    ensures |Missing(f, i, off / BSIZE, EndBlock(off, |src|))| > Space(f)
  {
    hide Slot, Progress, LoggedBy, Missing, FreeSet, Wants;
    var lo, hi, m := off / BSIZE, EndBlock(off, tot), ChunkLen(off + tot, |src| - tot);
    TouchedStep(off, tot, m);
    MissingJoin(f, g, i, lo, hi, hi, hi + 1);
    MoreTouched(off, tot + m, |src|);
    MissingGrows(f, i, lo, hi + 1, EndBlock(off, |src|));
  }

  lemma MoreTouched(off: nat, n: nat, n': nat)
    requires n <= n'
    ensures off / BSIZE <= EndBlock(off, n) <= EndBlock(off, n')
  {
  }

  // ---- The end of writei ----

  /** The size update at the end of writei. */
  function Resized(g: FS, i: nat, size: nat): FS
    requires i < |g.inodes|
  {
    if size > g.inodes[i].size then g.(inodes := g.inodes[i := g.inodes[i].(size := size)]) else g
  }

  lemma ResizedSlots(g: FS, i: nat, size: nat)
    requires i < |g.inodes|
    ensures SameSlots(g, Resized(g, i, size))
    ensures forall j, o: nat :: ByteAt(Resized(g, i, size), j, o) == ByteAt(g, j, o)
  {
    var h := Resized(g, i, size);
    forall j, t ensures Slot(h, j, t) == Slot(g, j, t) {
    }
  }

  lemma ResizedWf(g: FS, i: nat, size: nat)
    requires Wf(g) && NoLeak(g) && i < |g.inodes| && MappedTo(g, i, size) && size <= MAXFILE * BSIZE
    ensures Wf(Resized(g, i, size)) && NoLeak(Resized(g, i, size))
  {
    ResizedSlots(g, i, size);
    ChunkNoLeak(g, Resized(g, i, size));
    hide Slot;
  }

  /** The copied bytes and the new size together are a splice of the old file; other files are unchanged. */
  lemma WriteIsSplice(f: FS, g: FS, i: nat, off: nat, src: seq<int>)
    requires Wf(f) && i < |f.inodes| && off <= f.inodes[i].size && off + |src| <= MAXFILE * BSIZE
    requires Progress(f, g, i, off, src, |src|)
    ensures var h := Resized(g, i, off + |src|);
            && Wf(h) && NoLeak(h) && |h.inodes| == |f.inodes|
            && (off + |src| <= f.inodes[i].size ==> h.inodes[i] == f.inodes[i])
            && Content(h, i) == Splice(Content(f, i), off, src)
            && forall j :: 0 <= j < |f.inodes| && j != i ==> h.inodes[j] == f.inodes[j] && Content(h, j) == Content(f, j)
  {
    hide Slot, ByteAt, NoLeak, Wf, MappedTo;
    var h := Resized(g, i, off + |src|);
    ResizedSlots(g, i, off + |src|);
    ResizedWf(g, i, off + |src|);
    forall o | 0 <= o < |Content(h, i)| ensures Content(h, i)[o] == Splice(Content(f, i), off, src)[o] {
      if off <= o < off + |src| {
        assert ByteAt(g, i, off + (o - off)) == src[o - off];
      }
    }
    forall j | 0 <= j < |f.inodes| && j != i ensures Content(h, j) == Content(f, j) {
    }
  }

  // ---- Reading ----

  lemma BlockPresent(f: FS, i: nat, pos: nat)
    requires Wf(f) && i < |f.inodes| && pos < f.inodes[i].size
    ensures Slot(f, i, SlotOf(pos / BSIZE)) != 0 && pos / BSIZE < MAXFILE
  {
    hide Slot;
    assert pos / BSIZE * BSIZE < f.inodes[i].size;
  }

  lemma BmapUnchanged(f: FS, g: FS, i: nat, bn: nat, addr: int)
    requires BmapOk(f, g, i, bn, addr) && Slot(f, i, SlotOf(bn)) != 0
    ensures g == f && addr == Slot(f, i, SlotOf(bn))
  {
    hide Slot;
  }

  /** A block that is there costs nothing. */
  lemma BlockCosts(start: nat, f: FS, i: int, bn: nat)
    requires Slot(f, i, SlotOf(bn)) != 0
    ensures |Missing(f, i, bn, bn + 1)| == 0 && MapLog(start, f, f, i, bn, bn + 1) == {}
  {
    GrewPresent(f, i, bn);
    MapLogNone(start, f, i, bn);
  }

  lemma SomeFree(f: FS, a: nat)
    requires a < |f.used| && !f.used[a]
    ensures Space(f) > 0
  {
    assert a in FreeSet(f);
  }

  lemma NoneFree(f: FS)
    requires forall b :: 0 <= b < |f.used| ==> f.used[b]
    ensures Space(f) == 0
  {
    assert FreeSet(f) == {};
  }

  lemma DataOfOne(f: FS, g: FS, i: nat, bn: nat, addr: int)
    requires BmapOk(f, g, i, bn, addr)
    ensures DataOf(g, i, bn, bn + 1) == {addr}
  {
    hide Slot;
    assert DataOf(g, i, bn, bn + 1) == {Slot(g, i, SlotOf(bn))};
  }

  lemma CopyingEnds(start: nat, f: FS, g: FS, i: nat, off: nat, src: seq<int>, logged0: set<int>, logged1: set<int>)
    requires i < |f.inodes| && Copying(start, f, g, i, off, src, |src|, logged0, logged1)
    ensures |Missing(f, i, off / BSIZE, EndBlock(off, |src|))| <= Space(f)
  {
    hide Slot, Progress, LoggedBy, Missing, FreeSet, EndBlock;
  }

  /** The new size changes no slot. */
  lemma WriteGrew(start: nat, f: FS, g: FS, i: nat, off: nat, n: nat)
    requires i < |g.inodes| && Grew(f, g, i, off / BSIZE, EndBlock(off, n))
    ensures var h := Resized(g, i, off + n);
            && Grew(f, h, i, off / BSIZE, EndBlock(off, n))
            && LoggedBy(start, f, h, i, off / BSIZE, EndBlock(off, n)) == LoggedBy(start, f, g, i, off / BSIZE, EndBlock(off, n))
  {
    var h := Resized(g, i, off + n);
    ResizedSlots(g, i, off + n);
    hide Slot, Grew, LoggedBy, EndBlock, ByteAt;
    GrewSame(f, g, h, i, off / BSIZE, EndBlock(off, n));
    LoggedSame(start, f, g, h, i, off / BSIZE, EndBlock(off, n));
  }

  /** A run of bytes inside one block is a run of bytes of the file. */
  lemma BlockBytes(f: FS, i: nat, pos: nat, m: nat)
    requires Wf(f) && i < |f.inodes| && pos % BSIZE + m <= BSIZE && pos + m <= f.inodes[i].size
    requires Slot(f, i, SlotOf(pos / BSIZE)) != 0
    ensures var a := Slot(f, i, SlotOf(pos / BSIZE));
            && 0 < a < |f.blocks| && |f.blocks[a]| == BSIZE
            && f.blocks[a][pos % BSIZE..pos % BSIZE + m] == Content(f, i)[pos..pos + m]
  {
    hide Slot;
    var a := Slot(f, i, SlotOf(pos / BSIZE));
    var u, v := f.blocks[a][pos % BSIZE..pos % BSIZE + m], Content(f, i)[pos..pos + m];
    forall k | 0 <= k < m ensures u[k] == v[k] {
      assert (pos + k) / BSIZE == pos / BSIZE && (pos + k) % BSIZE == pos % BSIZE + k;
    }
  }

  // ---- Truncation ----

  /** Block `b` is in one of the first `k` slots of inode `i` or in one of its first `j` indirect words. */
  ghost predicate Gone(f: FS, i: nat, b: int, k: int, j: int) {
    b != 0 && exists s :: (0 <= s < k || NDIRECT < s <= NDIRECT + j) && Slot(f, i, s) == b
  }

  /** The bitmap with exactly those blocks freed. */
  ghost predicate Freed(f: FS, used: seq<bool>, i: nat, k: int, j: int) {
    |used| == |f.used| && forall b :: 0 <= b < |used| ==> (used[b] <==> f.used[b] && !Gone(f, i, b, k, j))
  }

  /** The next block to free is still marked used, and freeing it frees no other. */
  lemma FreedStep(f: FS, used: seq<bool>, i: nat, k: int, j: int, s: int, k': int, j': int)
    requires Wf(f) && Freed(f, used, i, k, j)
    requires (k' == k + 1 && j' == j && s == k && (k < NDIRECT || j == NINDIRECT)) || (k' == k && j' == j + 1 && s == NDIRECT + 1 + j)
    requires 0 <= k <= NDIRECT && 0 <= j
    ensures Slot(f, i, s) == 0 ==> Freed(f, used, i, k', j')
    ensures Slot(f, i, s) != 0 ==> f.meta <= Slot(f, i, s) < |used| && used[Slot(f, i, s)]
    ensures Slot(f, i, s) != 0 ==> Freed(f, used[Slot(f, i, s) := false], i, k', j')
  {
    hide Slot;
    forall b ensures Gone(f, i, b, k', j') <==> Gone(f, i, b, k, j) || (b != 0 && b == Slot(f, i, s)) {
      if b != 0 && b == Slot(f, i, s) {
        assert Gone(f, i, b, k', j');
      }
    }
  }

  lemma NoIndirect(f: FS, used: seq<bool>, i: nat)
    requires Freed(f, used, i, NDIRECT, 0) && Slot(f, i, NDIRECT) == 0
    ensures Freed(f, used, i, NDIRECT + 1, NINDIRECT)
  {
    forall b | Gone(f, i, b, NDIRECT + 1, NINDIRECT) ensures Gone(f, i, b, NDIRECT, 0) {
      var s :| (0 <= s < NDIRECT + 1 || NDIRECT < s <= NDIRECT + NINDIRECT) && Slot(f, i, s) == b;
      assert 0 <= s < NDIRECT;
    }
  }

  lemma FreedAll(f: FS, g: FS, i: nat)
    requires Freed(f, g.used, i, NDIRECT + 1, NINDIRECT)
    requires i < |f.inodes| && g.meta == f.meta && g.blocks == f.blocks
    requires g.inodes == f.inodes[i := Inode(0, seq(NDIRECT + 1, _ => 0))]
    ensures Truncated(f, g, i)
  {
    forall s | Slot(f, i, s) != 0 ensures Gone(f, i, Slot(f, i, s), NDIRECT + 1, NINDIRECT) {
    }
  }

  /** Inode `i` with all its blocks and its size dropped, and exactly its blocks freed. */
  ghost predicate Truncated(f: FS, g: FS, i: nat) {
    && i < |f.inodes|
    && g.meta == f.meta && g.blocks == f.blocks
    && g.inodes == f.inodes[i := Inode(0, seq(NDIRECT + 1, _ => 0))]
    && |g.used| == |f.used|
    && forall b :: 0 <= b < |f.used| ==> (g.used[b] <==> f.used[b] && !(b != 0 && exists s :: Slot(f, i, s) == b))
  }

  lemma TruncatedSlots(f: FS, g: FS, i: nat)
    requires Wf(f) && Truncated(f, g, i)
    ensures forall j, t :: Slot(g, j, t) == if j == i then 0 else Slot(f, j, t)
  {
    forall j, t ensures Slot(g, j, t) == if j == i then 0 else Slot(f, j, t) {
    }
  }

  lemma TruncatedWf(f: FS, g: FS, i: nat)
    requires Wf(f) && NoLeak(f) && Truncated(f, g, i)
    ensures Wf(g) && NoLeak(g)
    ensures forall j, t :: Slot(g, j, t) == if j == i then 0 else Slot(f, j, t)
    ensures forall j :: 0 <= j < |f.inodes| && j != i ==> Content(g, j) == Content(f, j)
  {
    TruncatedSlots(f, g, i);
    hide Slot;
    forall b | 0 <= b < g.meta ensures g.used[b] {
    }
    forall a | g.meta <= a < |g.used| && g.used[a] ensures Held(g, a) {
      var j, t :| Slot(f, j, t) == a;
      assert Slot(g, j, t) == a;
    }
    forall j | 0 <= j < |f.inodes| && j != i ensures Content(g, j) == Content(f, j) {
    }
  }

  lemma SizeBound(f: FS, i: nat)
    requires Wf(f) && i < |f.inodes|
    ensures f.inodes[i].size <= MAXFILE * BSIZE
  {
  }

  lemma AddrSlot(f: FS, i: nat, k: nat)
    requires Shape(f) && i < |f.inodes| && k <= NDIRECT
    ensures Slot(f, i, k) == f.inodes[i].addrs[k]
  {
  }

  class FileSystem {
    const meta: nat         // first data block
    const bmapstart: nat
    const inodestart: nat
    var used: seq<bool>     // the free bitmap
    var blocks: seq<Block>
    var inodes: seq<Inode>  // in-memory inodes
    var dinodes: seq<Inode> // on-disk inodes
    ghost var logged: set<int>

    ghost function Fs(): FS
      reads this
    {
      FS(used, blocks, inodes, meta)
    }

    ghost predicate Valid()
      reads this
    {
      Wf(Fs()) && NoLeak(Fs()) && dinodes == inodes
    }

    /** The file system on a disk that meets the invariant, as mkfs leaves it. */
    constructor (f: FS, start: nat, istart: nat)
      requires Wf(f) && NoLeak(f)
      ensures Valid() && Fs() == f && logged == {} && bmapstart == start && inodestart == istart
    {
      meta, bmapstart, inodestart := f.meta, start, istart;
      used, blocks, inodes, dinodes := f.used, f.blocks, f.inodes, f.inodes;
      logged := {};
    }

    function BBlock(b: nat): int { b / BPB + bmapstart }

    function IBlock(i: nat): int { i / IPB + inodestart }

    /** Take the first free block and zero it. */
    method Balloc() returns (ok: bool, a: nat)
      requires Wf(Fs())
      modifies this`used, this`blocks, this`logged
      ensures ok <==> Space(old(Fs())) > 0
      ensures ok ==> meta <= a < |old(used)| && !old(used)[a] && Fs() == Take(old(Fs()), a)
      ensures ok ==> (forall b :: 0 <= b < a ==> old(used)[b]) && logged == old(logged) + {BBlock(a), a}
      ensures !ok ==> Fs() == old(Fs()) && logged == old(logged) && forall b :: 0 <= b < |used| ==> used[b]
    {
      hide Slot;
      var size := |used|;
      var b := 0;
      while b < size
        invariant 0 <= b
        invariant Fs() == old(Fs()) && logged == old(logged)
        invariant forall c :: 0 <= c < b && c < size ==> used[c]
        decreases size - b
      {
        var bi := 0;
        while bi < BPB && b + bi < size
          invariant 0 <= bi <= BPB
          invariant Fs() == old(Fs()) && logged == old(logged)
          invariant forall c :: 0 <= c < b + bi && c < size ==> used[c]
        {
          if !used[b + bi] {
            SomeFree(Fs(), b + bi);
            used := used[b + bi := true];
            logged := logged + {BBlock(b + bi)};
            blocks := blocks[b + bi := Zeroes()];
            logged := logged + {b + bi};
            return true, b + bi;
          }
          bi := bi + 1;
        }
        b := b + BPB;
      }
      NoneFree(Fs());
      return false, 0;
    }

    /** Word for block `bn` in the indirect block, which is there; allocate a block if it is empty. */
    method IndirectWord(i: nat, bn: nat) returns (ok: bool, addr: int)
      requires Wf(Fs()) && i < |inodes| && NDIRECT <= bn < MAXFILE && inodes[i].addrs[NDIRECT] != 0
      modifies this`used, this`blocks, this`logged
      ensures Slot(old(Fs()), i, SlotOf(bn)) != 0 ==>
                ok && addr == Slot(old(Fs()), i, SlotOf(bn)) && Fs() == old(Fs()) && logged == old(logged)
      ensures Slot(old(Fs()), i, SlotOf(bn)) == 0 ==> (ok <==> Space(old(Fs())) > 0)
      ensures ok && Slot(old(Fs()), i, SlotOf(bn)) == 0 ==>
                && addr >= 0 && Allocated(old(Fs()), Fs(), i, SlotOf(bn), addr)
                && logged == old(logged) + {addr, BBlock(addr), inodes[i].addrs[NDIRECT]}
    {
      var r := inodes[i].addrs[NDIRECT];
      ghost var f := Fs();
      assert Slot(f, i, NDIRECT) == r;
      var j := bn - NDIRECT;
      addr := Word(blocks[r], j);
      assert addr == Slot(f, i, NDIRECT + 1 + j);
      if addr == 0 {
        hide Slot, Word, Space;
        ok, addr := Balloc();
        if !ok { return; }
        AllocateIndirect(f, i, j, addr);
        blocks := blocks[r := SetWord(blocks[r], j, addr)];
        logged := logged + {r};
      }
      ok := true;
    }

    /** bmap of a direct block. */
    method BmapDirect(i: nat, bn: nat) returns (ok: bool, addr: int)
      requires Wf(Fs()) && NoLeak(Fs()) && i < |inodes| && bn < NDIRECT
      modifies this`used, this`blocks, this`inodes, this`logged
      ensures ok <==> |Missing(old(Fs()), i, bn, bn + 1)| <= Space(old(Fs()))
      ensures ok ==> BmapOk(old(Fs()), Fs(), i, bn, addr)
                     && logged == old(logged) + MapLog(bmapstart, old(Fs()), Fs(), i, bn, bn + 1)
    {
      hide Slot, Missing, BmapOk, MapLog, Space, NoLeak, Owned, Unshared, NoHoles, SlotSet;
      ghost var f := Fs();
      addr := inodes[i].addrs[bn];
      AddrSlot(f, i, bn);
      MissingOne(f, i, bn);
      if addr == 0 {
        ok, addr := Balloc();
        if !ok { return; }
        AllocateDirect(f, i, bn, addr);
        inodes := inodes[i := inodes[i].(addrs := inodes[i].addrs[bn := addr])];
        BmapAllocated(f, Fs(), i, bn, addr);
        MapLogOne(bmapstart, f, Fs(), i, bn, addr);
      } else {
        BmapPresent(f, i, bn);
        MapLogNone(bmapstart, f, i, bn);
      }
      ok := true;
    }

    /** bmap of an indirect block when the inode's indirect block is there. */
    method BmapIndirect(i: nat, bn: nat) returns (ok: bool, addr: int)
      requires Wf(Fs()) && NoLeak(Fs()) && i < |inodes| && NDIRECT <= bn < MAXFILE && inodes[i].addrs[NDIRECT] != 0
      modifies this`used, this`blocks, this`logged
      ensures ok <==> |Missing(old(Fs()), i, bn, bn + 1)| <= Space(old(Fs()))
      ensures ok ==> BmapOk(old(Fs()), Fs(), i, bn, addr)
                     && logged == old(logged) + MapLog(bmapstart, old(Fs()), Fs(), i, bn, bn + 1)
    {
      hide Slot, Missing, BmapOk, MapLog, Space, NoLeak, Owned, Unshared, NoHoles, SlotSet;
      ghost var f := Fs();
      AddrSlot(f, i, NDIRECT);
      MissingOne(f, i, bn);
      ok, addr := IndirectWord(i, bn);
      if Slot(f, i, SlotOf(bn)) != 0 {
        BmapPresent(f, i, bn);
        MapLogNone(bmapstart, f, i, bn);
      } else if ok {
        BmapAllocated(f, Fs(), i, bn, addr);
        MapLogOne(bmapstart, f, Fs(), i, bn, addr);
      }
    }

    /** The part of bmap that has to allocate the indirect block first. */
    method BmapNewIndirect(i: nat, bn: nat) returns (ok: bool, addr: int)
      requires Wf(Fs()) && NoLeak(Fs()) && i < |inodes| && NDIRECT <= bn < MAXFILE && inodes[i].addrs[NDIRECT] == 0
      modifies this`used, this`blocks, this`inodes, this`logged
      ensures ok <==> |Missing(old(Fs()), i, bn, bn + 1)| <= Space(old(Fs()))
      ensures ok ==> BmapOk(old(Fs()), Fs(), i, bn, addr)
                     && logged == old(logged) + MapLog(bmapstart, old(Fs()), Fs(), i, bn, bn + 1)
    {
      hide Slot, Missing, BmapOk, MapLog, Space, NoLeak, Owned, Unshared, NoHoles, SlotSet;
      ghost var f := Fs();
      AddrSlot(f, i, NDIRECT);
      NoIndirectWords(f, i, SlotOf(bn));
      MissingOne(f, i, bn);
      addr := 0;
      var r: nat;
      ok, r := Balloc();
      if !ok { return; }
      AllocateDirect(f, i, NDIRECT, r);
      inodes := inodes[i := inodes[i].(addrs := inodes[i].addrs[NDIRECT := r])];
      ghost var g := Fs();
      AllocatedNoLeak(f, g, i, NDIRECT, r);
      AllocatedFree(f, g, i, NDIRECT, r);
      SecondStillMissing(f, g, i, bn, r);
      ok, addr := IndirectWord(i, bn);
      if !ok { return; }
      BmapAllocatedTwice(f, g, Fs(), i, bn, r, addr);
      MapLogTwo(bmapstart, f, g, Fs(), i, bn, r, addr);
    }

    /** Address of block `bn` of inode `i`, allocating it and the indirect block as needed.  It fails exactly for a block
        beyond the largest file, or when fewer blocks are free than it lacks. */
    method Bmap(i: nat, bn: nat) returns (ok: bool, addr: int)
      requires Wf(Fs()) && NoLeak(Fs()) && i < |inodes|
      modifies this`used, this`blocks, this`inodes, this`logged
      ensures ok <==> bn < MAXFILE && |Missing(old(Fs()), i, bn, bn + 1)| <= Space(old(Fs()))
      ensures ok ==> BmapOk(old(Fs()), Fs(), i, bn, addr)
                     && logged == old(logged) + MapLog(bmapstart, old(Fs()), Fs(), i, bn, bn + 1)
    {
      hide Slot, Missing, BmapOk, MapLog, Space, NoLeak;
      ok, addr := false, 0;
      if bn < NDIRECT {
        ok, addr := BmapDirect(i, bn);
      } else if bn - NDIRECT < NINDIRECT {
        if inodes[i].addrs[NDIRECT] == 0 {
          ok, addr := BmapNewIndirect(i, bn);
        } else {
          ok, addr := BmapIndirect(i, bn);
        }
      }
    }

    /** One turn of writei's loop: map the block and copy `data` into it. */
    method WriteBlock(i: nat, off: nat, data: seq<int>) returns (ok: bool)
      requires Wf(Fs()) && NoLeak(Fs()) && i < |inodes| && off % BSIZE + |data| <= BSIZE
      requires off < MAXFILE * BSIZE
      modifies this`used, this`blocks, this`inodes, this`logged
      ensures ok <==> |Missing(old(Fs()), i, off / BSIZE, off / BSIZE + 1)| <= Space(old(Fs()))
      ensures ok ==> ChunkOk(old(Fs()), Fs(), i, off, data)
      ensures ok ==> Recorded(bmapstart, old(Fs()), Fs(), i, off / BSIZE, off / BSIZE + 1, old(logged), logged)
    {
      hide Slot, Mapped, NoLeak, ByteAt, Missing, Space, Grew, MapLog, Wf, ChunkOk, BmapOk;
      var a;
      ok, a := Bmap(i, off / BSIZE);
      if !ok { return; }
      ghost var g := Fs();
      ChunkWritten(old(Fs()), g, i, off, data, a);
      DataOfOne(old(Fs()), g, i, off / BSIZE, a);
      blocks := blocks[a := Patch(blocks[a], off % BSIZE, data)];
      logged := logged + {a};
      LoggedSame(bmapstart, old(Fs()), g, Fs(), i, off / BSIZE, off / BSIZE + 1);
    }

    /** iupdate: copy the in-memory inode to the disk. */
    method Iupdate(i: nat)
      requires i < |inodes| == |dinodes|
      modifies this`dinodes, this`logged
      ensures dinodes == old(dinodes)[i := inodes[i]] && logged == old(logged) + {IBlock(i)}
    {
      dinodes := dinodes[i := inodes[i]];
      logged := logged + {IBlock(i)};
    }

    /** writei on a file or directory: a splice of the flat file.  It halts exactly when fewer blocks are free than the
        blocks touched lack. */
    method Writei(i: nat, src: seq<int>, off: nat) returns (ok: bool, r: int)
      requires Valid() && i < |inodes| && off < 0x1_0000_0000 && |src| < 0x1_0000_0000
      modifies this`used, this`blocks, this`inodes, this`dinodes, this`logged
      ensures off > old(inodes[i].size) || off + |src| > MAXFILE * BSIZE ==>
                ok && r == -1 && Fs() == old(Fs()) && dinodes == old(dinodes) && logged == old(logged)
      ensures off <= old(inodes[i].size) && off + |src| <= MAXFILE * BSIZE ==>
                (ok <==> |Missing(old(Fs()), i, off / BSIZE, EndBlock(off, |src|))| <= Space(old(Fs())))
      ensures ok && off <= old(inodes[i].size) && off + |src| <= MAXFILE * BSIZE ==>
                && r == |src| && Valid() && |inodes| == |old(inodes)|
                && Content(Fs(), i) == Splice(old(Content(Fs(), i)), off, src)
                && (forall j :: 0 <= j < |inodes| && j != i ==>
                      inodes[j] == old(inodes)[j] && Content(Fs(), j) == Content(old(Fs()), j))
                && Grew(old(Fs()), Fs(), i, off / BSIZE, EndBlock(off, |src|))
                && logged == old(logged) + LoggedBy(bmapstart, old(Fs()), Fs(), i, off / BSIZE, EndBlock(off, |src|))
                             + if |src| > 0 && off + |src| > old(inodes[i].size) then {IBlock(i)} else {}
    {
      hide Slot, ByteAt, NoLeak, Wf, Content, Splice, Progress, Grew, LoggedBy, EndBlock, Missing, Space;
      if off > inodes[i].size || off + |src| >= 0x1_0000_0000 {
        return true, -1;
      }
      if off + |src| > MAXFILE * BSIZE {
        return true, -1;
      }
      ghost var f := Fs();
      ok := WriteBlocks(i, src, off);
      if !ok { r := 0; return; }
      ghost var g := Fs();
      WriteIsSplice(f, g, i, off, src);
      ProgressFacts(f, g, i, off, src, |src|);
      WriteGrew(bmapstart, f, g, i, off, |src|);
      if |src| > 0 && off + |src| > inodes[i].size {
        inodes := inodes[i := inodes[i].(size := off + |src|)];
        Iupdate(i);
      }
      assert Fs() == Resized(g, i, off + |src|);
      return true, |src|;
    }

    /** The loop of writei. */
    method WriteBlocks(i: nat, src: seq<int>, off: nat) returns (ok: bool)
      requires Valid() && i < |inodes| && off <= inodes[i].size && off + |src| <= MAXFILE * BSIZE
      modifies this`used, this`blocks, this`inodes, this`logged
      ensures ok <==> |Missing(old(Fs()), i, off / BSIZE, EndBlock(off, |src|))| <= Space(old(Fs()))
      ensures ok ==> Copying(bmapstart, old(Fs()), Fs(), i, off, src, |src|, old(logged), logged)
    {
      hide Slot, ByteAt, NoLeak, Wf, ChunkOk, ChunkLen, Copying, Recorded, EndBlock, Missing, Space;
      ghost var f := Fs();
      ok := true;
      CopyingStart(bmapstart, f, i, off, src, logged);
      var tot := 0;
      while tot < |src|
        invariant 0 <= tot <= |src| && ok && |inodes| == |f.inodes| && Wf(Fs()) && NoLeak(Fs())
        invariant Copying(bmapstart, f, Fs(), i, off, src, tot, old(logged), logged)
      {
        var m := ChunkLen(off + tot, |src| - tot);
        ghost var g, logged1 := Fs(), logged;
        ok := WriteBlock(i, off + tot, src[tot..tot + m]);
        if !ok {
          CopyingStops(bmapstart, f, g, i, off, src, tot, old(logged), logged1);
          return;
        }
        CopyingStep(bmapstart, f, g, Fs(), i, off, src, tot, m, old(logged), logged1, logged);
        tot := tot + m;
      }
      CopyingEnds(bmapstart, f, Fs(), i, off, src, old(logged), logged);
    }

    /** readi on a file or directory: a slice of the flat file, and nothing is allocated or changed. */
    method Readi(i: nat, off: nat, n: nat) returns (r: int, dst: seq<int>)
      requires Valid() && i < |inodes| && off < 0x1_0000_0000 && n < 0x1_0000_0000
      modifies this`used, this`blocks, this`inodes, this`logged
      ensures Fs() == old(Fs()) && logged == old(logged)
      ensures off > inodes[i].size || off + n >= 0x1_0000_0000 ==> r == -1 && dst == []
      ensures off <= inodes[i].size && off + n < 0x1_0000_0000 ==>
                && r == (if off + n > inodes[i].size then inodes[i].size - off else n)
                && dst == Content(Fs(), i)[off..off + r]
    {
      hide Slot, NoLeak, Wf, BmapOk, ByteAt, Content, ChunkLen, Missing, MapLog, Space;
      dst := [];
      if off > inodes[i].size || off + n >= 0x1_0000_0000 {
        return -1, [];
      }
      var n' := if off + n > inodes[i].size then inodes[i].size - off else n;
      ghost var f, c := Fs(), Content(Fs(), i);
      var tot := 0;
      while tot < n'
        invariant 0 <= tot <= n' && Fs() == f && logged == old(logged)
        invariant dst == c[off..off + tot]
      {
        var pos := off + tot;
        BlockPresent(f, i, pos);
        BlockCosts(bmapstart, f, i, pos / BSIZE);
        var ok, a := Bmap(i, pos / BSIZE);
        BmapUnchanged(f, Fs(), i, pos / BSIZE, a);
        var m := ChunkLen(pos, n' - tot);
        BlockBytes(f, i, pos, m);
        assert c[off..pos] + c[pos..pos + m] == c[off..pos + m];
        dst := dst + blocks[a][pos % BSIZE..pos % BSIZE + m];
        tot := tot + m;
      }
      return n', dst;
    }

    /** bfree; the block must be marked used, or the kernel panics with "freeing free block". */
    method Bfree(b: nat)
      requires b < |used| && used[b]
      modifies this`used, this`logged
      ensures used == old(used)[b := false]
    {
      used := used[b := false];
      logged := logged + {BBlock(b)};
    }

    /** The first loop of itrunc: free and clear the direct addresses. */
    method FreeDirect(i: nat)
      requires Wf(Fs()) && i < |inodes|
      modifies this`used, this`inodes, this`logged
      ensures Freed(old(Fs()), used, i, NDIRECT, 0)
      ensures inodes == old(inodes)[i := Inode(old(inodes[i].size), seq(NDIRECT, _ => 0) + [old(inodes[i].addrs[NDIRECT])])]
    {
      ghost var f := Fs();
      assert Freed(f, used, i, 0, 0);
      hide Freed;
      var k := 0;
      while k < NDIRECT
        invariant 0 <= k <= NDIRECT
        invariant Freed(f, used, i, k, 0)
        invariant |inodes| == |f.inodes| && inodes[i].size == f.inodes[i].size && |inodes[i].addrs| == NDIRECT + 1
        invariant forall j :: 0 <= j < |inodes| && j != i ==> inodes[j] == f.inodes[j]
        invariant forall s :: 0 <= s <= NDIRECT ==> inodes[i].addrs[s] == if s < k then 0 else f.inodes[i].addrs[s]
      {
        FreedStep(f, used, i, k, 0, k, k + 1, 0);
        assert inodes[i].addrs[k] == Slot(f, i, k);
        if inodes[i].addrs[k] != 0 {
          Bfree(inodes[i].addrs[k]);
          inodes := inodes[i := inodes[i].(addrs := inodes[i].addrs[k := 0])];
        }
        k := k + 1;
      }
      assert inodes[i].addrs == seq(NDIRECT, _ => 0) + [f.inodes[i].addrs[NDIRECT]];
    }

    /** The second half of itrunc: free the blocks named by the indirect block `r`, then `r` itself. */
    method FreeIndirect(ghost f: FS, i: nat, r: nat)
      requires Wf(f) && i < |f.inodes| && r == f.inodes[i].addrs[NDIRECT] != 0
      requires blocks == f.blocks && Freed(f, used, i, NDIRECT, 0)
      modifies this`used, this`logged
      ensures Freed(f, used, i, NDIRECT + 1, NINDIRECT)
    {
      hide Freed;
      assert r == Slot(f, i, NDIRECT);
      var j := 0;
      while j < NINDIRECT
        invariant 0 <= j <= NINDIRECT
        invariant Freed(f, used, i, NDIRECT, j)
      {
        FreedStep(f, used, i, NDIRECT, j, NDIRECT + 1 + j, NDIRECT, j + 1);
        var a := Word(blocks[r], j);
        assert a == Slot(f, i, NDIRECT + 1 + j);
        if a != 0 {
          Bfree(a);
        }
        j := j + 1;
      }
      FreedStep(f, used, i, NDIRECT, NINDIRECT, NDIRECT, NDIRECT + 1, NINDIRECT);
      Bfree(r);
    }

    /** itrunc frees exactly the blocks of inode `i`, each of which is marked used when it is freed. */
    method Itrunc(i: nat)
      requires Valid() && i < |inodes|
      modifies this`used, this`inodes, this`dinodes, this`logged
      ensures Valid() && Truncated(old(Fs()), Fs(), i)
      ensures forall j :: 0 <= j < |old(inodes)| && j != i ==>
                inodes[j] == old(inodes)[j] && Content(Fs(), j) == Content(old(Fs()), j)
    {
      ghost var f := Fs();
      hide NoLeak, Freed;
      FreeDirect(i);
      var r := inodes[i].addrs[NDIRECT];
      assert r == Slot(f, i, NDIRECT);
      if r != 0 {
        FreeIndirect(f, i, r);
        inodes := inodes[i := inodes[i].(addrs := inodes[i].addrs[NDIRECT := 0])];
      } else {
        NoIndirect(f, used, i);
      }
      inodes := inodes[i := inodes[i].(size := 0)];
      assert inodes[i].addrs == seq(NDIRECT + 1, _ => 0);
      FreedAll(f, Fs(), i);
      TruncatedWf(f, Fs(), i);
      Iupdate(i);
    }
  }
}
