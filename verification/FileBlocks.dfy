/** Block ownership: the free bitmap, the inodes' block maps and the blocks themselves.

    An inode's slots are its NDIRECT direct addresses, the address of its indirect block (slot
    NDIRECT) and the NINDIRECT words of that block.  Address 0 means "no block". */
module FileBlocks {
  import opened Sets

  const BSIZE := 512
  const NDIRECT := 12
  const NINDIRECT := BSIZE / 4
  const MAXFILE := NDIRECT + NINDIRECT
  const NSLOTS := NDIRECT + 1 + NINDIRECT

  type Block = seq<int>

  datatype Inode = Inode(size: nat, addrs: seq<int>)

  datatype FS = FS(used: seq<bool>, blocks: seq<Block>, inodes: seq<Inode>, meta: nat)

  // ---- Words of an indirect block ----

  /** Little-endian word `j` of a block. */
  function Word(b: Block, j: nat): int
    requires 4 * j + 4 <= |b|
  {
    b[4 * j] + 0x100 * b[4 * j + 1] + 0x1_0000 * b[4 * j + 2] + 0x100_0000 * b[4 * j + 3]
  }

  function SetWord(b: Block, j: nat, v: nat): (r: Block)
    requires 4 * j + 4 <= |b| && v < 0x1_0000_0000
    ensures |r| == |b|
  {
    var v1 := v / 0x100;
    var v2 := v1 / 0x100;
    b[4 * j := v % 0x100][4 * j + 1 := v1 % 0x100][4 * j + 2 := v2 % 0x100][4 * j + 3 := v2 / 0x100]
  }

  function Zeroes(): (r: Block)
    ensures |r| == BSIZE
  {
    seq(BSIZE, _ => 0)
  }

  lemma WordOfSetWord(b: Block, j: nat, v: nat, k: nat)
    requires 4 * j + 4 <= |b| && v < 0x1_0000_0000 && 4 * k + 4 <= |b|
    ensures Word(SetWord(b, j, v), k) == if k == j then v else Word(b, k)
  {
    var r := SetWord(b, j, v);
    if k == j {
      var v1 := v / 0x100;
      var v2 := v1 / 0x100;
      assert r[4 * j] == v % 0x100 && r[4 * j + 1] == v1 % 0x100 && r[4 * j + 2] == v2 % 0x100;
      assert v2 == 0x100 * (v2 / 0x100) + v2 % 0x100;
    } else {
      assert r[4 * k] == b[4 * k] && r[4 * k + 1] == b[4 * k + 1] && r[4 * k + 2] == b[4 * k + 2];
    }
  }

  // ---- Slots ----

  /** The address in slot `s` of inode `i`. */
  function Slot(f: FS, i: int, s: int): int {
    if !(0 <= i < |f.inodes| && 0 <= s < NSLOTS && |f.inodes[i].addrs| == NDIRECT + 1) then 0
    else if s <= NDIRECT then f.inodes[i].addrs[s]
    else
      var r := f.inodes[i].addrs[NDIRECT];
      if 0 < r < |f.blocks| && |f.blocks[r]| == BSIZE then Word(f.blocks[r], s - NDIRECT - 1) else 0
  }

  /** The slot that holds the address of file block `bn`. */
  function SlotOf(bn: nat): nat {
    if bn < NDIRECT then bn else bn + 1
  }

  ghost predicate Shape(f: FS) {
    && |f.used| == |f.blocks| < 0x1_0000_0000
    && 0 < f.meta
    && (forall b :: 0 <= b < |f.blocks| ==> |f.blocks[b]| == BSIZE)
    && (forall i :: 0 <= i < |f.inodes| ==>
          |f.inodes[i].addrs| == NDIRECT + 1 && f.inodes[i].size <= MAXFILE * BSIZE)
  }

  /** Every address in use is a data block marked used in the bitmap; so are the meta blocks. */
  ghost predicate Owned(f: FS) {
    && f.meta <= |f.used|
    && (forall b :: 0 <= b < f.meta ==> f.used[b])
    && forall i, s :: Slot(f, i, s) != 0 ==> f.meta <= Slot(f, i, s) < |f.used| && f.used[Slot(f, i, s)]
  }

  /** No block is in two slots. */
  ghost predicate Unshared(f: FS) {
    forall i, s, j, t :: Slot(f, i, s) != 0 && Slot(f, i, s) == Slot(f, j, t) ==> i == j && s == t
  }

  /** Every block below an inode's size is mapped. */
  ghost predicate NoHoles(f: FS) {
    forall i, bn :: 0 <= i < |f.inodes| && 0 <= bn && bn * BSIZE < f.inodes[i].size ==> Slot(f, i, SlotOf(bn)) != 0
  }

  ghost predicate Wf(f: FS) {
    Shape(f) && Owned(f) && Unshared(f) && NoHoles(f)
  }

  /** `g` has the slots of `f`, except that slot `s` of inode `i` now holds `a`. */
  ghost predicate SlotSet(f: FS, g: FS, i: int, s: int, a: int) {
    forall j, t :: Slot(g, j, t) == if j == i && t == s then a else Slot(f, j, t)
  }

  ghost predicate SameSlots(f: FS, g: FS) {
    forall j, t :: Slot(g, j, t) == Slot(f, j, t)
  }

  ghost predicate SameSizes(f: FS, g: FS) {
    && |f.inodes| == |g.inodes| && f.meta == g.meta && |f.blocks| == |g.blocks|
    && forall i :: 0 <= i < |f.inodes| ==> g.inodes[i].size == f.inodes[i].size
  }

  // ---- The updates that allocation and writing are made of ----

  /** balloc of the free block `a`: mark it used and zero it. */
  function Take(f: FS, a: nat): FS
    requires a < |f.used| == |f.blocks|
  {
    f.(used := f.used[a := true], blocks := f.blocks[a := Zeroes()])
  }

  function SetAddr(f: FS, i: nat, k: nat, a: int): FS
    requires i < |f.inodes| && k < |f.inodes[i].addrs|
  {
    f.(inodes := f.inodes[i := f.inodes[i].(addrs := f.inodes[i].addrs[k := a])])
  }

  function PutBlock(f: FS, a: nat, b: Block): FS
    requires a < |f.blocks|
  {
    f.(blocks := f.blocks[a := b])
  }

  lemma FreeIsUnowned(f: FS, a: int)
    requires Wf(f) && f.meta <= a < |f.used| && !f.used[a]
    ensures forall i, s :: Slot(f, i, s) != a
  {
  }

  lemma TakeSlots(f: FS, a: nat)
    requires Wf(f) && f.meta <= a < |f.used| && !f.used[a]
    ensures SameSlots(f, Take(f, a))
  {
    var g := Take(f, a);
    forall j, t ensures Slot(g, j, t) == Slot(f, j, t) {
      assert Slot(f, j, NDIRECT) != a;
    }
  }

  lemma TakeKeeps(f: FS, a: nat)
    requires Wf(f) && f.meta <= a < |f.used| && !f.used[a]
    ensures Wf(Take(f, a)) && SameSlots(f, Take(f, a)) && SameSizes(f, Take(f, a))
    ensures forall i, s :: Slot(Take(f, a), i, s) != a
  {
    TakeSlots(f, a);
    FreeIsUnowned(f, a);
    hide Slot;
  }

  /** Slot-wise facts are all that ownership depends on. */
  lemma SlotSetKeeps(f: FS, g: FS, i: int, s: int, a: int)
    requires Wf(f) && Shape(g) && SlotSet(f, g, i, s, a) && SameSizes(f, g) && g.used == f.used
    requires f.meta <= a < |f.used| && f.used[a] && forall j, t :: Slot(f, j, t) != a
    ensures Wf(g)
  {
    hide Slot;
  }

  lemma SameSlotsKeeps(f: FS, g: FS)
    requires Wf(f) && Shape(g) && SameSlots(f, g) && SameSizes(f, g) && g.used == f.used
    ensures Wf(g)
  {
    hide Slot;
  }

  lemma LinkDirect(f: FS, i: nat, k: nat, a: nat)
    requires Wf(f) && i < |f.inodes| && k <= NDIRECT && f.inodes[i].addrs[k] == 0
    requires f.meta <= a < |f.used| && f.used[a] && forall j, t :: Slot(f, j, t) != a
    requires f.blocks[a] == Zeroes()
    ensures Wf(SetAddr(f, i, k, a)) && SlotSet(f, SetAddr(f, i, k, a), i, k, a)
    ensures SameSizes(f, SetAddr(f, i, k, a))
  {
    var g := SetAddr(f, i, k, a);
    forall j, t ensures Slot(g, j, t) == if j == i && t == k then a else Slot(f, j, t) {
    }
    SlotSetKeeps(f, g, i, k, a);
  }

  lemma LinkIndirect(f: FS, i: nat, j: nat, a: nat)
    requires Wf(f) && i < |f.inodes| && j < NINDIRECT
    requires f.inodes[i].addrs[NDIRECT] != 0 && Slot(f, i, NDIRECT + 1 + j) == 0
    requires f.meta <= a < |f.used| && f.used[a] && forall k, t :: Slot(f, k, t) != a
    ensures Slot(f, i, NDIRECT) == f.inodes[i].addrs[NDIRECT] && f.meta <= Slot(f, i, NDIRECT) < |f.blocks|
    ensures var r := f.inodes[i].addrs[NDIRECT];
            var g := PutBlock(f, r, SetWord(f.blocks[r], j, a));
            Wf(g) && SlotSet(f, g, i, NDIRECT + 1 + j, a) && SameSizes(f, g)
  {
    var r := f.inodes[i].addrs[NDIRECT];
    assert Slot(f, i, NDIRECT) == r;
    var g := PutBlock(f, r, SetWord(f.blocks[r], j, a));
    forall k, t ensures Slot(g, k, t) == if k == i && t == NDIRECT + 1 + j then a else Slot(f, k, t) {
      assert Slot(f, k, NDIRECT) == r ==> k == i;
      if k == i && NDIRECT < t < NSLOTS {
        WordOfSetWord(f.blocks[r], j, a, t - NDIRECT - 1);
      }
    }
    SlotSetKeeps(f, g, i, NDIRECT + 1 + j, a);
  }

  /** Writing a data block changes no block map. */
  lemma WriteData(f: FS, i: nat, s: nat, b: Block)
    requires Wf(f) && s != NDIRECT && Slot(f, i, s) != 0 && |b| == BSIZE
    ensures f.meta <= Slot(f, i, s) < |f.blocks|
    ensures var g := PutBlock(f, Slot(f, i, s), b); Wf(g) && SameSlots(f, g) && SameSizes(f, g)
  {
    var a := Slot(f, i, s);
    var g := PutBlock(f, a, b);
    forall j, t ensures Slot(g, j, t) == Slot(f, j, t) {
      assert Slot(f, j, NDIRECT) != a;
    }
    SameSlotsKeeps(f, g);
  }

  // ---- Bytes of a file ----

  /** Byte `o` of inode `i` through its block map. */
  function ByteAt(f: FS, i: int, o: nat): int {
    var a := Slot(f, i, SlotOf(o / BSIZE));
    if 0 < a < |f.blocks| && |f.blocks[a]| == BSIZE then f.blocks[a][o % BSIZE] else 0
  }

  /** The file as one flat byte sequence. */
  ghost function Content(f: FS, i: nat): (c: seq<int>)
    requires i < |f.inodes|
    ensures |c| == f.inodes[i].size
  {
    seq(f.inodes[i].size, o requires 0 <= o => ByteAt(f, i, o))
  }

  /** `data` written over `s` from `off` on; the result is as long as needed. */
  function Splice(s: seq<int>, off: nat, data: seq<int>): (r: seq<int>)
    requires off <= |s|
    ensures |r| == if off + |data| > |s| then off + |data| else |s|
  {
    s[..off] + data + if off + |data| < |s| then s[off + |data|..] else []
  }

  /** Block contents with `data` copied in at `lo`. */
  function Patch(b: Block, lo: nat, data: seq<int>): (r: Block)
    requires lo + |data| <= |b|
    ensures |r| == |b|
  {
    b[..lo] + data + b[lo + |data|..]
  }

  /** bmap turned `f` into `g`: block `bn` of inode `i` is at `addr`, other blocks are as before. */
  ghost predicate Mapped(f: FS, g: FS, i: nat, bn: nat, addr: int) {
    var s := SlotOf(bn);
    && Wf(g) && SameSizes(f, g)
    && addr == Slot(g, i, s) != 0
    && (Slot(f, i, s) != 0 ==> g == f)
    && (forall j, t :: Slot(f, j, t) != 0 || j != i || (t != s && (t != NDIRECT || bn < NDIRECT)) ==>
          Slot(g, j, t) == Slot(f, j, t))
    && (forall j, t :: t != NDIRECT && Slot(f, j, t) > 0 ==> g.blocks[Slot(f, j, t)] == f.blocks[Slot(f, j, t)])
    && (forall j :: 0 <= j < |f.inodes| && j != i ==> g.inodes[j] == f.inodes[j])
  }

  /** Copying into a mapped data block changes those bytes of that file and no other byte. */
  lemma PatchBytes(g: FS, i: nat, bn: nat, lo: nat, data: seq<int>)
    requires Wf(g) && Slot(g, i, SlotOf(bn)) != 0 && lo + |data| <= BSIZE
    ensures g.meta <= Slot(g, i, SlotOf(bn)) < |g.blocks|
    ensures var a := Slot(g, i, SlotOf(bn));
            var h := PutBlock(g, a, Patch(g.blocks[a], lo, data));
            && Wf(h) && SameSlots(g, h) && SameSizes(g, h)
            && (forall k :: 0 <= k < |data| ==> ByteAt(h, i, bn * BSIZE + lo + k) == data[k])
            && (forall j, o: nat :: !(j == i && bn * BSIZE + lo <= o < bn * BSIZE + lo + |data|) ==>
                  ByteAt(h, j, o) == ByteAt(g, j, o))
  {
    var a := Slot(g, i, SlotOf(bn));
    WriteData(g, i, SlotOf(bn), Patch(g.blocks[a], lo, data));
    var h := PutBlock(g, a, Patch(g.blocks[a], lo, data));
    hide Slot;
    forall k | 0 <= k < |data| ensures ByteAt(h, i, bn * BSIZE + lo + k) == data[k] {
      assert (bn * BSIZE + lo + k) / BSIZE == bn && (bn * BSIZE + lo + k) % BSIZE == lo + k;
    }
    forall j, o: nat | !(j == i && bn * BSIZE + lo <= o < bn * BSIZE + lo + |data|)
      ensures ByteAt(h, j, o) == ByteAt(g, j, o)
    {
      if Slot(g, j, SlotOf(o / BSIZE)) == a {
        assert o / BSIZE == bn && o == bn * BSIZE + o % BSIZE;
      }
    }
  }

  /** Mapping a block changes no byte that was mapped before. */
  lemma MappedBytes(f: FS, g: FS, i: nat, bn: nat, addr: int, j: int, o: nat)
    requires Wf(f) && Mapped(f, g, i, bn, addr) && Slot(f, j, SlotOf(o / BSIZE)) != 0
    ensures ByteAt(g, j, o) == ByteAt(f, j, o)
  {
    hide Slot;
  }

  // ---- Allocation ----

  /** Some slot holds block `a`. */
  ghost predicate Held(f: FS, a: int) {
    exists i, s :: Slot(f, i, s) == a
  }

  /** Every used data block is in some slot: nothing is leaked. */
  ghost predicate NoLeak(f: FS) {
    forall a :: f.meta <= a < |f.used| && f.used[a] ==> Held(f, a)
  }

  /** `g` is `f` with the free block `a` taken and put into the empty slot `s` of inode `i`. */
  ghost predicate Allocated(f: FS, g: FS, i: nat, s: nat, a: nat) {
    && Wf(g) && SameSizes(f, g) && SlotSet(f, g, i, s, a)
    && f.meta <= a < |f.used| && !f.used[a] && g.used == f.used[a := true]
    && (forall j :: 0 <= j < |f.inodes| && j != i ==> g.inodes[j] == f.inodes[j])
    && (forall b :: 0 <= b < |f.blocks| && b != a && b != Slot(f, i, NDIRECT) ==> g.blocks[b] == f.blocks[b])
  }

  lemma AllocateDirect(f: FS, i: nat, k: nat, a: nat)
    requires Wf(f) && i < |f.inodes| && k <= NDIRECT && f.inodes[i].addrs[k] == 0
    requires f.meta <= a < |f.used| && !f.used[a]
    ensures Allocated(f, SetAddr(Take(f, a), i, k, a), i, k, a)
  {
    TakeKeeps(f, a);
    LinkDirect(Take(f, a), i, k, a);
    hide Slot;
  }

  lemma AllocateIndirect(f: FS, i: nat, j: nat, a: nat)
    requires Wf(f) && i < |f.inodes| && j < NINDIRECT
    requires f.inodes[i].addrs[NDIRECT] != 0 && Slot(f, i, NDIRECT + 1 + j) == 0
    requires f.meta <= a < |f.used| && !f.used[a]
    ensures Slot(f, i, NDIRECT) == f.inodes[i].addrs[NDIRECT] && f.meta <= Slot(f, i, NDIRECT) < |f.blocks|
    ensures var r := f.inodes[i].addrs[NDIRECT];
            var t := Take(f, a);
            Allocated(f, PutBlock(t, r, SetWord(t.blocks[r], j, a)), i, NDIRECT + 1 + j, a)
  {
    assert Slot(f, i, NDIRECT) == f.inodes[i].addrs[NDIRECT];
    TakeKeeps(f, a);
    LinkIndirect(Take(f, a), i, j, a);
    hide Slot;
  }

  lemma AllocatedNoLeak(f: FS, g: FS, i: nat, s: nat, a: nat)
    requires Wf(f) && NoLeak(f) && Allocated(f, g, i, s, a) && Slot(f, i, s) == 0
    ensures NoLeak(g)
  {
    hide Slot;
    forall b | g.meta <= b < |g.used| && g.used[b] ensures Held(g, b) {
      if b == a {
        assert Slot(g, i, s) == a;
      } else {
        var j, t :| Slot(f, j, t) == b;
        assert Slot(g, j, t) == b;
      }
    }
  }

  lemma AllocatedMaps(f: FS, g: FS, i: nat, bn: nat, a: nat)
    requires Wf(f) && Allocated(f, g, i, SlotOf(bn), a) && Slot(f, i, SlotOf(bn)) == 0
    ensures Mapped(f, g, i, bn, a)
  {
    hide Slot;
  }

  /** The indirect block first, then the data block. */
  lemma AllocatedTwiceMaps(f: FS, g: FS, h: FS, i: nat, bn: nat, r: nat, a: nat)
    requires Wf(f) && Allocated(f, g, i, NDIRECT, r) && Allocated(g, h, i, SlotOf(bn), a)
    requires Slot(f, i, NDIRECT) == 0 && Slot(f, i, SlotOf(bn)) == 0 && NDIRECT <= bn
    ensures Mapped(f, h, i, bn, a)
  {
    hide Slot;
  }

  // ---- What mapping a range of file blocks takes ----

  ghost function FreeSet(f: FS): set<int> {
    set b | 0 <= b < |f.used| && !f.used[b]
  }

  /** Number of free blocks. */
  ghost function Space(f: FS): nat { |FreeSet(f)| }

  /** Slot `t` belongs to file blocks `lo` up to `hi`: the slot of one of them, or the indirect block that they need. */
  predicate Wants(lo: nat, hi: nat, t: int) {
    && 0 <= t < NSLOTS
    && if t == NDIRECT then lo < hi && NDIRECT < hi else lo <= (if t < NDIRECT then t else t - 1) < hi
  }

  /** The slots of these file blocks that are empty. */
  ghost function Missing(f: FS, i: int, lo: nat, hi: nat): set<int> {
    set t | 0 <= t < NSLOTS && Wants(lo, hi, t) && Slot(f, i, t) == 0
  }

  /** `g` has exactly these slots of inode `i` filled besides those of `f`, each with a block that was free. */
  ghost predicate Grew(f: FS, g: FS, i: int, lo: nat, hi: nat) {
    && FreeSet(g) <= FreeSet(f) && Space(g) == Space(f) - |Missing(f, i, lo, hi)|
    && (forall t :: 0 <= t < NSLOTS ==> (Slot(g, i, t) != 0 <==> Slot(f, i, t) != 0 || Wants(lo, hi, t)))
    && (forall t :: Slot(f, i, t) != 0 ==> Slot(g, i, t) == Slot(f, i, t))
    && (forall a :: a in FreeSet(f) && a !in FreeSet(g) ==> InSlots(g, i, lo, hi, a))
  }

  ghost predicate InSlots(g: FS, i: int, lo: nat, hi: nat, a: int) {
    exists t :: Wants(lo, hi, t) && Slot(g, i, t) == a
  }

  lemma GrewNothing(f: FS, i: int, lo: nat)
    ensures Grew(f, f, i, lo, lo)
  {
    hide Slot;
    assert Missing(f, i, lo, lo) == {};
  }

  lemma GrewPresent(f: FS, i: int, bn: nat)
    requires Slot(f, i, SlotOf(bn)) != 0
    ensures Grew(f, f, i, bn, bn + 1) && Missing(f, i, bn, bn + 1) == {}
  {
    assert bn >= NDIRECT ==> Slot(f, i, NDIRECT) != 0;
    hide Slot;
    var hi := bn + 1;
    assert forall t :: Wants(bn, hi, t) ==> t == SlotOf(bn) || (t == NDIRECT && bn >= NDIRECT);
    assert Missing(f, i, bn, bn + 1) == {};
  }

  /** One range after another that it may overlap. */
  lemma WantsJoin(lo: nat, hi: nat, lo': nat, hi': nat, t: int)
    requires lo <= lo' <= hi <= hi'
    ensures Wants(lo, hi', t) <==> Wants(lo, hi, t) || Wants(lo', hi', t)
  {
  }

  lemma MissingJoin(f: FS, g: FS, i: int, lo: nat, hi: nat, lo': nat, hi': nat)
    requires Grew(f, g, i, lo, hi) && lo <= lo' <= hi <= hi'
    ensures Missing(f, i, lo, hi') == Missing(f, i, lo, hi) + Missing(g, i, lo', hi')
    ensures |Missing(f, i, lo, hi')| == |Missing(f, i, lo, hi)| + |Missing(g, i, lo', hi')|
  {
    hide Slot, Wants;
    var a, b := Missing(f, i, lo, hi), Missing(g, i, lo', hi');
    forall t ensures Wants(lo, hi', t) <==> Wants(lo, hi, t) || Wants(lo', hi', t) {
      WantsJoin(lo, hi, lo', hi', t);
    }
    assert Missing(f, i, lo, hi') == a + b;
    assert a !! b;
  }

  lemma MissingGrows(f: FS, i: int, lo: nat, hi: nat, hi': nat)
    requires lo <= hi <= hi'
    ensures |Missing(f, i, lo, hi)| <= |Missing(f, i, lo, hi')|
  {
    hide Slot, Wants;
    forall t | Wants(lo, hi, t) ensures Wants(lo, hi', t) {
      WantsJoin(lo, hi, lo, hi', t);
    }
    SubsetSize(Missing(f, i, lo, hi), Missing(f, i, lo, hi'));
  }

  lemma GrewJoin(f: FS, g: FS, h: FS, i: int, lo: nat, hi: nat, lo': nat, hi': nat)
    requires Grew(f, g, i, lo, hi) && Grew(g, h, i, lo', hi') && lo <= lo' <= hi <= hi'
    ensures Grew(f, h, i, lo, hi')
  {
    MissingJoin(f, g, i, lo, hi, lo', hi');
    hide Slot, Wants, Missing, FreeSet;
    forall t ensures Wants(lo, hi', t) <==> Wants(lo, hi, t) || Wants(lo', hi', t) {
      WantsJoin(lo, hi, lo', hi', t);
    }
    forall a | a in FreeSet(f) && a !in FreeSet(h) ensures InSlots(h, i, lo, hi', a) {
      if a !in FreeSet(g) {
        var t :| Wants(lo, hi, t) && Slot(g, i, t) == a;
        assert Wants(lo, hi', t) && 0 <= t < NSLOTS by { WantsRange(lo, hi, t); }
        assert Slot(h, i, t) == a;
      } else {
        var t :| Wants(lo', hi', t) && Slot(h, i, t) == a;
        assert Wants(lo, hi', t);
      }
    }
  }

  lemma WantsRange(lo: nat, hi: nat, t: int)
    requires Wants(lo, hi, t)
    ensures 0 <= t < NSLOTS
  {
  }

  lemma AllocatedFree(f: FS, g: FS, i: nat, s: nat, a: nat)
    requires Allocated(f, g, i, s, a)
    ensures FreeSet(g) == FreeSet(f) - {a} && a in FreeSet(f) && Space(g) == Space(f) - 1
  {
    hide Slot, Wf;
  }

  lemma GrewOne(f: FS, g: FS, i: nat, bn: nat, a: nat)
    requires Allocated(f, g, i, SlotOf(bn), a) && Slot(f, i, SlotOf(bn)) == 0 && bn < MAXFILE
    requires bn >= NDIRECT ==> Slot(f, i, NDIRECT) != 0
    ensures Grew(f, g, i, bn, bn + 1) && |Missing(f, i, bn, bn + 1)| == 1
  {
    AllocatedFree(f, g, i, SlotOf(bn), a);
    hide Slot, FreeSet, Wf;
    assert Wants(bn, bn + 1, SlotOf(bn)) && Slot(g, i, SlotOf(bn)) == a;
    OneWants(bn);
    assert Missing(f, i, bn, bn + 1) == {SlotOf(bn)};
    assert a > 0;
  }

  lemma GrewTwo(f: FS, g: FS, h: FS, i: nat, bn: nat, r: nat, a: nat)
    requires Allocated(f, g, i, NDIRECT, r) && Allocated(g, h, i, SlotOf(bn), a) && NDIRECT <= bn < MAXFILE
    requires Slot(f, i, NDIRECT) == 0 && Slot(f, i, SlotOf(bn)) == 0
    ensures Grew(f, h, i, bn, bn + 1) && |Missing(f, i, bn, bn + 1)| == 2
  {
    AllocatedFree(f, g, i, NDIRECT, r);
    AllocatedFree(g, h, i, SlotOf(bn), a);
    hide Slot, FreeSet, Wf;
    assert Wants(bn, bn + 1, SlotOf(bn)) && Slot(h, i, SlotOf(bn)) == a;
    assert Wants(bn, bn + 1, NDIRECT) && Slot(h, i, NDIRECT) == r;
    OneWants(bn);
    assert Missing(f, i, bn, bn + 1) == {SlotOf(bn), NDIRECT};
    assert a > 0 && r > 0;
  }

  /** Only slots and the bitmap count. */
  lemma GrewSame(f: FS, g: FS, h: FS, i: int, lo: nat, hi: nat)
    requires Grew(f, g, i, lo, hi) && SameSlots(g, h) && h.used == g.used
    ensures Grew(f, h, i, lo, hi)
  {
    hide Slot, Wants, Missing;
    assert FreeSet(h) == FreeSet(g);
    forall a | a in FreeSet(f) && a !in FreeSet(h) ensures InSlots(h, i, lo, hi, a) {
      var t :| Wants(lo, hi, t) && Slot(g, i, t) == a;
      assert Slot(h, i, t) == a;
    }
  }

  /** The number of blocks that one file block takes. */
  lemma MissingOne(f: FS, i: int, bn: nat)
    requires bn < MAXFILE
    ensures |Missing(f, i, bn, bn + 1)| ==
              (if Slot(f, i, SlotOf(bn)) == 0 then 1 else 0) + (if bn >= NDIRECT && Slot(f, i, NDIRECT) == 0 then 1 else 0)
  {
    NoIndirectWords(f, i, SlotOf(bn));
    if Slot(f, i, SlotOf(bn)) != 0 {
      GrewPresent(f, i, bn);
    } else {
      hide Slot;
      OneWants(bn);
      if bn >= NDIRECT && Slot(f, i, NDIRECT) == 0 {
        assert Missing(f, i, bn, bn + 1) == {SlotOf(bn), NDIRECT};
      } else {
        assert Missing(f, i, bn, bn + 1) == {SlotOf(bn)};
      }
    }
  }

  lemma OneWants(bn: nat)
    requires bn < MAXFILE
    ensures forall t {:trigger Wants(bn, bn + 1, t)} :: Wants(bn, bn + 1, t) <==> t == SlotOf(bn) || (t == NDIRECT && bn >= NDIRECT)
  {
  }

  /** Without an indirect block there are no words. */
  lemma NoIndirectWords(f: FS, i: int, s: nat)
    ensures s > NDIRECT && Slot(f, i, NDIRECT) == 0 ==> Slot(f, i, s) == 0
  {
  }
}
