/** A nearly full disk, on which one write logs ten blocks.

    A hundred inodes have full block maps, each in a run of NSLOTS blocks of its own, except that the last word of four
    of them is empty: the four blocks that are free.  The last inode has one byte in its tenth block. */
module FullDisk {
  import opened Params
  import opened FileBlocks
  import opened FileSys
  import opened File

  const META: nat := 100
  const FULL: nat := 100
  const TOTAL: nat := META + NSLOTS * FULL + 10

  /** The inodes whose last word is empty. */
  predicate Short(j: int) { j == 0 || j == 30 || j == 60 || j == 90 }

  /** What slot `s` of inode `j` holds. */
  function Addr(j: int, s: int): int {
    if 0 <= j < FULL && 0 <= s < NSLOTS && !(s == NSLOTS - 1 && Short(j)) then META + NSLOTS * j + s
    else if j == FULL && 0 <= s < 10 then META + NSLOTS * FULL + s
    else 0
  }

  /** The block where the last word of inode `j` would be. */
  function Gap(j: int): int { META + NSLOTS * j + NSLOTS - 1 }

  function FreeBlocks(): seq<int> { [Gap(0), Gap(30), Gap(60), Gap(90)] }

  /** The indirect block of inode `j`. */
  function Words(j: int): (b: Block)
    ensures |b| == BSIZE
  {
    seq(BSIZE, p requires 0 <= p < BSIZE =>
      var v := Addr(j, NDIRECT + 1 + p / 4);
      if p % 4 == 0 then v % 0x100 else if p % 4 == 1 then v / 0x100 else 0)
  }

  function BlockAt(b: int): (r: Block)
    ensures |r| == BSIZE
  {
    if META <= b < META + NSLOTS * FULL && (b - META) % NSLOTS == NDIRECT then Words((b - META) / NSLOTS) else Zeroes()
  }

  function InodeAt(j: int): (n: Inode)
    ensures |n.addrs| == NDIRECT + 1
  {
    Inode(if j == FULL then 9 * BSIZE + 1 else if Short(j) then (MAXFILE - 1) * BSIZE else MAXFILE * BSIZE,
          seq(NDIRECT + 1, s requires 0 <= s => Addr(j, s)))
  }

  function Disk(): FS {
    FS(seq(TOTAL, b requires 0 <= b => b !in FreeBlocks()), seq(TOTAL, b requires 0 <= b => BlockAt(b)),
       seq(FULL + 1, j requires 0 <= j => InodeAt(j)), META)
  }

  lemma WordIs(j: int, w: nat)
    requires w < NINDIRECT && 0 <= Addr(j, NDIRECT + 1 + w) < 0x1_0000
    ensures Word(Words(j), w) == Addr(j, NDIRECT + 1 + w)
  {
    hide Addr;
    var v := Addr(j, NDIRECT + 1 + w);
    assert (4 * w) / 4 == w && (4 * w + 1) / 4 == w && (4 * w + 2) / 4 == w && (4 * w + 3) / 4 == w;
    assert (4 * w) % 4 == 0 && (4 * w + 1) % 4 == 1 && (4 * w + 2) % 4 == 2 && (4 * w + 3) % 4 == 3;
    assert Words(j)[4 * w] == v % 0x100 && Words(j)[4 * w + 1] == v / 0x100;
    assert Words(j)[4 * w + 2] == 0 && Words(j)[4 * w + 3] == 0;
  }

  /** Blocks of different inodes or slots differ. */
  lemma Runs(j: nat, s: nat)
    requires s < NSLOTS
    ensures (NSLOTS * j + s) / NSLOTS == j && (NSLOTS * j + s) % NSLOTS == s
  {
    var x := 141 * j + s;
    assert NSLOTS == 141;
    assert x / 141 == j;
  }

  lemma AddrRun(j: int, s: int)
    ensures 0 <= Addr(j, s) < 0x1_0000
    ensures Addr(j, s) != 0 ==> META <= Addr(j, s) < TOTAL && 0 <= j <= FULL && 0 <= s < NSLOTS
    ensures Addr(j, s) != 0 ==> Addr(j, s) - META == NSLOTS * j + s
    ensures Addr(j, s) != 0 ==> !(s == NSLOTS - 1 && Short(j))
  {
    assert NSLOTS == 141;
  }

  lemma AddrBounds(j: int, s: int)
    ensures Addr(j, s) != 0 ==> META <= Addr(j, s) < TOTAL && 0 <= j <= FULL && 0 <= s < NSLOTS
    ensures Addr(j, s) != 0 ==> (Addr(j, s) - META) / NSLOTS == j && (Addr(j, s) - META) % NSLOTS == s
    ensures Addr(j, s) != 0 ==> Addr(j, s) !in FreeBlocks()
  {
    hide Addr;
    AddrRun(j, s);
    if Addr(j, s) != 0 {
      Runs(j, s);
      NotGap(j, s, 0);
      NotGap(j, s, 30);
      NotGap(j, s, 60);
      NotGap(j, s, 90);
    }
  }

  lemma NotGap(j: nat, s: nat, g: nat)
    requires s < NSLOTS && (s != NSLOTS - 1 || j != g)
    ensures META + NSLOTS * j + s != Gap(g)
  {
    assert NSLOTS == 141;
  }

  lemma IndirectAt(j: nat)
    requires j < FULL
    ensures var r := META + NSLOTS * j + NDIRECT; 0 < r < TOTAL && BlockAt(r) == Words(j)
  {
    hide Words;
    Runs(j, NDIRECT);
    assert NSLOTS == 141;
  }

  lemma SlotIs(j: int, s: int)
    ensures Slot(Disk(), j, s) == Addr(j, s)
  {
    hide BlockAt;
    var f := Disk();
    if 0 <= j < FULL && NDIRECT < s < NSLOTS {
      var r := META + NSLOTS * j + NDIRECT;
      IndirectAt(j);
      assert f.inodes[j].addrs[NDIRECT] == r;
      assert f.blocks[r] == Words(j);
      AddrRun(j, s);
      WordIs(j, s - NDIRECT - 1);
    }
  }

  lemma DiskShape()
    ensures var f := Disk();
            && Shape(f) && f.meta == META && |f.used| == TOTAL && |f.inodes| == FULL + 1
            && (forall b :: 0 <= b < TOTAL ==> f.used[b] == (b !in FreeBlocks()))
            && (forall j :: 0 <= j <= FULL ==> f.inodes[j].size == InodeAt(j).size)
  {
    hide BlockAt, Addr;
  }

  lemma DiskOwned()
    ensures Owned(Disk()) && Unshared(Disk())
  {
    hide Slot, Disk, Addr;
    var f := Disk();
    DiskShape();
    forall i, s | Slot(f, i, s) != 0 ensures f.meta <= Slot(f, i, s) < |f.used| && f.used[Slot(f, i, s)] {
      SlotIs(i, s);
      AddrBounds(i, s);
    }
    forall i, s, j, t | Slot(f, i, s) != 0 && Slot(f, i, s) == Slot(f, j, t) ensures i == j && s == t {
      SlotIs(i, s);
      SlotIs(j, t);
      AddrBounds(i, s);
      AddrBounds(j, t);
    }
  }

  lemma DiskMapped()
    ensures NoHoles(Disk())
  {
    hide Slot, Disk;
    var f := Disk();
    DiskShape();
    forall i, bn | 0 <= i < |f.inodes| && 0 <= bn && bn * BSIZE < f.inodes[i].size ensures Slot(f, i, SlotOf(bn)) != 0 {
      SlotIs(i, SlotOf(bn));
    }
  }

  lemma DiskHeld()
    ensures NoLeak(Disk())
  {
    hide Slot, Disk;
    var f := Disk();
    DiskShape();
    forall b | f.meta <= b < |f.used| && f.used[b] ensures Held(f, b) {
      var j, s := (b - META) / NSLOTS, (b - META) % NSLOTS;
      assert b == META + NSLOTS * j + s;
      SlotIs(j, s);
      assert Slot(f, j, s) == b;
    }
  }

  lemma DiskFree()
    ensures FourFree(Disk(), FreeBlocks())
  {
    hide Disk;
    var f, a := Disk(), FreeBlocks();
    DiskShape();
    assert FreeSet(f) == {a[0], a[1], a[2], a[3]};
    assert a[0] / BPB == 0 && a[1] / BPB == 1 && a[2] / BPB == 2 && a[3] / BPB == 3;
  }

  lemma DiskReady()
    ensures Wf(Disk()) && NoLeak(Disk()) && EndsInNine(Disk(), FULL) && FourFree(Disk(), FreeBlocks())
  {
    hide Slot, Disk, Owned, Unshared, NoHoles, NoLeak;
    DiskShape();
    DiskOwned();
    DiskMapped();
    DiskHeld();
    DiskFree();
    SlotIs(FULL, 10);
    SlotIs(FULL, 11);
    SlotIs(FULL, NDIRECT);
  }

  /** One chunk of filewrite that logs ten blocks. */
  method TenBlocks() returns (fs: FileSystem)
    ensures |fs.logged| == MAXOPBLOCKS
  {
    hide Disk, Wf, NoLeak, EndsInNine, FourFree;
    DiskReady();
    fs := new FileSystem(Disk(), 50, 20);
    DiskLayout();
    var ok, r := WriteTen(fs, FULL, seq(CHUNK, _ => 0), FreeBlocks());
  }

  lemma DiskLayout()
    ensures FULL / IPB + 20 < 50 && FreeBlocks()[3] / BPB + 50 < META && Disk().meta == META
  {
  }
}
