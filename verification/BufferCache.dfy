/** The buffer cache as a transition system: processes get, lock, fill, change, write and release buffers,
    in any interleaving of the sections that the cache's lock and the buffers' sleep locks make atomic.

    A handle is one use of a buffer, from bget to the end of brelse. */
module BufferCache {
  import opened Params

  const NBUF := 3 * MAXOPBLOCKS
  const DISK := 1      // the only device there is

  type Block = seq<int>

  /** `owner` is the handle that holds the sleep lock, or -1. */
  datatype Buf = Buf(dev: nat, blockno: nat, refcnt: int, valid: bool, dirty: bool, data: Block, owner: int)

  datatype Phase = Waiting | Holding | Dropping

  datatype Handle = Handle(buf: nat, dev: nat, blockno: nat, phase: Phase)

  /** `pos` is each buffer's place in the list, the most recently released first; `used` is when it was last
      released; `flat` is the disk as its users should see it; `edited` are the buffers whose holder has changed
      the data and not passed it to log_write or bwrite yet. */
  datatype Cache = Cache(bufs: seq<Buf>, disk: seq<Block>, refs: map<nat, Handle>,
                         pos: seq<nat>, used: seq<int>, clock: int, flat: seq<Block>, edited: set<nat>)

  predicate Caches(b: Buf, dev: nat, blockno: nat) { b.dev == dev && b.blockno == blockno }

  /** A buffer that bget may recycle. */
  predicate Unused(b: Buf) { b.refcnt == 0 && !b.dirty }

  ghost function Holders(refs: map<nat, Handle>, i: int): set<nat> {
    set h | h in refs && refs[h].buf == i
  }

  // ---- The invariant ----

  ghost predicate Shape(s: Cache) {
    && |s.bufs| == |s.pos| == |s.used| == NBUF && |s.flat| == |s.disk|
    && (forall h :: h in s.refs ==> s.refs[h].buf < NBUF)
    && (forall i :: i in s.edited ==> i < NBUF)
  }

  /** A handle's buffer keeps the handle's block, and its lock is held by the handle that says so. */
  ghost predicate HandleInv(s: Cache)
    requires Shape(s)
  {
    && (forall h :: h in s.refs ==> Caches(s.bufs[s.refs[h].buf], s.refs[h].dev, s.refs[h].blockno))
    && (forall h :: h in s.refs && s.refs[h].phase.Holding? ==> s.bufs[s.refs[h].buf].owner == h)
    && (forall i :: 0 <= i < NBUF && s.bufs[i].owner >= 0 ==>
          s.bufs[i].owner in s.refs && s.refs[s.bufs[i].owner].buf == i && s.refs[s.bufs[i].owner].phase.Holding?)
  }

  ghost predicate CountInv(s: Cache)
    requires Shape(s)
  {
    forall i :: 0 <= i < NBUF ==> s.bufs[i].refcnt == |Holders(s.refs, i)|
  }

  /** At most one buffer caches a block; device 0 is what buffers have before their first use. */
  ghost predicate UniqueInv(s: Cache)
    requires Shape(s)
  {
    forall i, j :: 0 <= i < NBUF && 0 <= j < NBUF && s.bufs[i].dev != 0 && Caches(s.bufs[j], s.bufs[i].dev, s.bufs[i].blockno) ==> i == j
  }

  ghost predicate Clean(s: Cache, b: nat)
    requires Shape(s)
  {
    forall i :: 0 <= i < NBUF && Caches(s.bufs[i], DISK, b) ==> !s.bufs[i].dirty
  }

  /** Valid buffers and the disk hold what users should see. */
  ghost predicate DataInv(s: Cache)
    requires Shape(s)
  {
    && (forall i :: 0 <= i < NBUF && s.bufs[i].dirty ==> s.bufs[i].valid)
    && (forall i :: 0 <= i < NBUF && s.bufs[i].valid ==> s.bufs[i].dev == DISK && s.bufs[i].blockno < |s.disk|)
    && (forall i :: 0 <= i < NBUF && s.bufs[i].valid && i !in s.edited ==> s.bufs[i].data == s.flat[s.bufs[i].blockno])
    && (forall b :: 0 <= b < |s.disk| && Clean(s, b) ==> s.disk[b] == s.flat[b])
    && (forall i :: i in s.edited ==> s.bufs[i].owner >= 0)
  }

  /** The list is in order of last release. */
  ghost predicate OrderInv(s: Cache)
    requires Shape(s)
  {
    && (forall i :: 0 <= i < NBUF ==> 1 <= s.pos[i] <= NBUF && s.used[i] < s.clock)
    && (forall i, j :: 0 <= i < NBUF && 0 <= j < NBUF && i != j ==> s.pos[i] != s.pos[j])
    && (forall i, j :: 0 <= i < NBUF && 0 <= j < NBUF ==> (s.pos[i] < s.pos[j] <==> s.used[i] > s.used[j]))
  }

  ghost predicate Inv(s: Cache) {
    Shape(s) && HandleInv(s) && CountInv(s) && UniqueInv(s) && DataInv(s) && OrderInv(s)
  }

  // ---- The steps ----

  datatype Step =
    | Get(h: nat, dev: nat, blockno: nat, i: nat)
    | Acquire(h: nat)
    | Fill(h: nat)
    | Edit(h: nat, data: Block)
    | LogWrite(h: nat)
    | BWrite(h: nat)
    | Unlock(h: nat)
    | Drop(h: nat)

  predicate Hit(s: Cache, dev: nat, blockno: nat, i: nat) {
    i < |s.bufs| && Caches(s.bufs[i], dev, blockno)
  }

  /** The unused buffer nearest to the end of the list. */
  ghost predicate Victim(s: Cache, i: nat) {
    && |s.pos| == |s.bufs| && i < |s.bufs| && Unused(s.bufs[i])
    && forall j :: 0 <= j < |s.bufs| && Unused(s.bufs[j]) ==> s.pos[j] <= s.pos[i]
  }

  ghost predicate Miss(s: Cache, dev: nat, blockno: nat, i: nat) {
    && (forall j :: 0 <= j < |s.bufs| ==> !Caches(s.bufs[j], dev, blockno))
    && Victim(s, i)
  }

  predicate In(s: Cache, h: nat, p: Phase) { h in s.refs && s.refs[h].phase == p && s.refs[h].buf < |s.bufs| }

  function BufOf(s: Cache, h: nat): Buf
    requires h in s.refs && s.refs[h].buf < |s.bufs|
  {
    s.bufs[s.refs[h].buf]
  }

  predicate OnDisk(s: Cache, h: nat)
    requires h in s.refs
  {
    s.refs[h].dev == DISK && s.refs[h].blockno < |s.disk| == |s.flat|
  }

  /** What each section needs: the calls' own checks, and that a holder that has changed the data writes it
      before it lets go. */
  ghost predicate Enabled(s: Cache, step: Step) {
    match step
    case Get(h, dev, b, i) => h !in s.refs && (Hit(s, dev, b, i) || Miss(s, dev, b, i))
    case Acquire(h) => In(s, h, Waiting) && BufOf(s, h).owner == -1
    case Fill(h) => In(s, h, Holding) && !BufOf(s, h).valid && OnDisk(s, h)
    case Edit(h, _) => In(s, h, Holding) && BufOf(s, h).valid
    case LogWrite(h) => In(s, h, Holding) && BufOf(s, h).valid && OnDisk(s, h)
    case BWrite(h) => In(s, h, Holding) && OnDisk(s, h)
    case Unlock(h) => In(s, h, Holding) && s.refs[h].buf !in s.edited
    case Drop(h) => In(s, h, Dropping) && |s.pos| == |s.used| == |s.bufs|
  }

  /** brelse moves the buffer to the front of the list. */
  function ToFront(pos: seq<nat>, i: nat): seq<nat>
    requires i < |pos|
  {
    seq(|pos|, x requires 0 <= x < |pos| => if x == i then 1 else if pos[x] < pos[i] then pos[x] + 1 else pos[x])
  }

  function Recycled(b: Buf, dev: nat, blockno: nat): Buf {
    Buf(dev, blockno, 1, false, false, b.data, b.owner)
  }

  function SetBuf(s: Cache, i: nat, b: Buf): Cache
    requires i < |s.bufs|
  {
    s.(bufs := s.bufs[i := b])
  }

  function SetPhase(s: Cache, h: nat, p: Phase): Cache
    requires h in s.refs
  {
    s.(refs := s.refs[h := s.refs[h].(phase := p)])
  }

  function DoGet(s: Cache, h: nat, dev: nat, blockno: nat, i: nat): Cache
    requires i < |s.bufs|
  {
    var b := s.bufs[i];
    SetBuf(s, i, if Caches(b, dev, blockno) then b.(refcnt := b.refcnt + 1) else Recycled(b, dev, blockno))
    .(refs := s.refs[h := Handle(i, dev, blockno, Waiting)])
  }

  function DoDrop(s: Cache, h: nat): Cache
    requires In(s, h, Dropping) && |s.pos| == |s.used| == |s.bufs|
  {
    var i := s.refs[h].buf;
    var t := SetBuf(s, i, s.bufs[i].(refcnt := s.bufs[i].refcnt - 1)).(refs := s.refs - {h});
    if t.bufs[i].refcnt == 0
    then t.(pos := ToFront(t.pos, i), used := t.used[i := t.clock], clock := t.clock + 1)
    else t
  }

  ghost function Apply(s: Cache, step: Step): Cache
    requires Enabled(s, step)
  {
    match step
    case Get(h, dev, b, i) => DoGet(s, h, dev, b, i)
    case Acquire(h) => SetPhase(SetBuf(s, s.refs[h].buf, BufOf(s, h).(owner := h)), h, Holding)
    case Fill(h) => SetBuf(s, s.refs[h].buf, BufOf(s, h).(data := s.disk[s.refs[h].blockno], valid := true))
    case Edit(h, d) => SetBuf(s, s.refs[h].buf, BufOf(s, h).(data := d)).(edited := s.edited + {s.refs[h].buf})
    case LogWrite(h) =>
      SetBuf(s, s.refs[h].buf, BufOf(s, h).(dirty := true))
      .(edited := s.edited - {s.refs[h].buf}, flat := s.flat[s.refs[h].blockno := BufOf(s, h).data])
    case BWrite(h) =>
      SetBuf(s, s.refs[h].buf, BufOf(s, h).(dirty := false, valid := true))
      .(edited := s.edited - {s.refs[h].buf}, flat := s.flat[s.refs[h].blockno := BufOf(s, h).data],
        disk := s.disk[s.refs[h].blockno := BufOf(s, h).data])
    case Unlock(h) => SetPhase(SetBuf(s, s.refs[h].buf, BufOf(s, h).(owner := -1)), h, Dropping)
    case Drop(h) => DoDrop(s, h)
  }

  // ---- Steps of a holder on the data ----

  /** Only the data, flags and contents of buffer `i` differ. */
  ghost predicate SameUse(s: Cache, t: Cache, i: nat) {
    && t.refs == s.refs && t.pos == s.pos && t.used == s.used && t.clock == s.clock
    && |t.bufs| == |s.bufs| && |t.disk| == |s.disk| && |t.flat| == |s.flat|
    && (forall j :: 0 <= j < |s.bufs| && j != i ==> t.bufs[j] == s.bufs[j])
    && (i < |s.bufs| ==> t.bufs[i] == s.bufs[i].(data := t.bufs[i].data, valid := t.bufs[i].valid, dirty := t.bufs[i].dirty))
    && t.edited <= s.edited + {i}
  }

  lemma SameUseKeeps(s: Cache, t: Cache, i: nat)
    requires Inv(s) && SameUse(s, t, i) && i < NBUF
    ensures Shape(t) && HandleInv(t) && CountInv(t) && UniqueInv(t) && OrderInv(t)
  {
    hide Holders, DataInv;
    assert forall j :: 0 <= j < NBUF ==> t.bufs[j].dev == s.bufs[j].dev && t.bufs[j].blockno == s.bufs[j].blockno;
    assert forall j :: 0 <= j < NBUF ==> t.bufs[j].owner == s.bufs[j].owner && t.bufs[j].refcnt == s.bufs[j].refcnt;
  }

  /** A block whose buffers are clean afterwards was clean before, unless its own buffer was cleaned. */
  lemma CleanBefore(s: Cache, t: Cache, i: nat, c: nat)
    requires Shape(s) && Shape(t) && i < NBUF && Clean(t, c)
    requires forall j :: 0 <= j < NBUF && j != i ==> t.bufs[j] == s.bufs[j]
    requires Caches(s.bufs[i], DISK, c) ==> !s.bufs[i].dirty
    ensures Clean(s, c)
  {
    forall j | 0 <= j < NBUF && Caches(s.bufs[j], DISK, c) ensures !s.bufs[j].dirty {
      assert j != i ==> Caches(t.bufs[j], DISK, c);
    }
  }

  lemma FillData(s: Cache, h: nat)
    requires Inv(s) && Enabled(s, Fill(h))
    ensures var t := Apply(s, Fill(h)); Shape(t) && DataInv(t) && SameUse(s, t, s.refs[h].buf)
  {
    hide Holders, CountInv, OrderInv;
    var t, i, b := Apply(s, Fill(h)), s.refs[h].buf, s.refs[h].blockno;
    forall c: nat | c < |s.disk| && Clean(t, c) ensures t.disk[c] == t.flat[c] {
      CleanBefore(s, t, i, c);
    }
    assert Clean(s, b);
  }

  lemma EditData(s: Cache, h: nat, d: Block)
    requires Inv(s) && Enabled(s, Edit(h, d))
    ensures var t := Apply(s, Edit(h, d)); Shape(t) && DataInv(t) && SameUse(s, t, s.refs[h].buf)
  {
    hide Holders, CountInv, OrderInv;
    var t, i := Apply(s, Edit(h, d)), s.refs[h].buf;
    forall c: nat | c < |s.disk| && Clean(t, c) ensures t.disk[c] == t.flat[c] {
      assert Caches(s.bufs[i], DISK, c) ==> Caches(t.bufs[i], DISK, c);
      CleanBefore(s, t, i, c);
    }
  }

  lemma LogWriteData(s: Cache, h: nat)
    requires Inv(s) && Enabled(s, LogWrite(h))
    ensures var t := Apply(s, LogWrite(h)); Shape(t) && DataInv(t) && SameUse(s, t, s.refs[h].buf)
  {
    hide Holders, CountInv, OrderInv;
    var t, i := Apply(s, LogWrite(h)), s.refs[h].buf;
    assert Caches(t.bufs[i], DISK, s.refs[h].blockno);
    forall c: nat | c < |s.disk| && Clean(t, c) ensures t.disk[c] == t.flat[c] {
      assert c != s.refs[h].blockno;
      CleanBefore(s, t, i, c);
    }
    assert forall j :: 0 <= j < NBUF && j != i && s.bufs[j].valid ==> s.bufs[j].blockno != s.refs[h].blockno;
  }

  lemma BWriteData(s: Cache, h: nat)
    requires Inv(s) && Enabled(s, BWrite(h))
    ensures var t := Apply(s, BWrite(h)); Shape(t) && DataInv(t) && SameUse(s, t, s.refs[h].buf)
  {
    hide Holders, CountInv, OrderInv;
    var t, i, b := Apply(s, BWrite(h)), s.refs[h].buf, s.refs[h].blockno;
    forall c: nat | c < |s.disk| && c != b && Clean(t, c) ensures t.disk[c] == t.flat[c] {
      CleanBefore(s, t, i, c);
    }
    assert forall j :: 0 <= j < NBUF && j != i && s.bufs[j].valid ==> s.bufs[j].blockno != b;
  }

  // ---- The sleep lock ----

  lemma LockHandles(s: Cache, step: Step)
    requires Inv(s) && (step.Acquire? || step.Unlock?) && Enabled(s, step)
    ensures var t := Apply(s, step); Shape(t) && HandleInv(t)
  {
    hide Holders, CountInv, OrderInv, UniqueInv, DataInv;
  }

  lemma LockRest(s: Cache, step: Step)
    requires Inv(s) && (step.Acquire? || step.Unlock?) && Enabled(s, step)
    ensures var t := Apply(s, step); Shape(t) && CountInv(t) && UniqueInv(t) && OrderInv(t)
  {
    hide DataInv, HandleInv;
    var t := Apply(s, step);
    forall i ensures Holders(t.refs, i) == Holders(s.refs, i) {
    }
  }

  lemma LockData(s: Cache, step: Step)
    requires Inv(s) && (step.Acquire? || step.Unlock?) && Enabled(s, step)
    ensures var t := Apply(s, step); Shape(t) && DataInv(t)
  {
    hide Holders, CountInv, OrderInv, UniqueInv;
    var t, i := Apply(s, step), s.refs[step.h].buf;
    forall c: nat | c < |s.disk| && Clean(t, c) ensures t.disk[c] == t.flat[c] {
      assert Caches(s.bufs[i], DISK, c) ==> Caches(t.bufs[i], DISK, c);
      CleanBefore(s, t, i, c);
    }
  }

  // ---- bget ----

  lemma HoldersAdd(refs: map<nat, Handle>, h: nat, v: Handle, i: int)
    requires h !in refs
    ensures |Holders(refs[h := v], i)| == |Holders(refs, i)| + if v.buf == i then 1 else 0
  {
    assert Holders(refs[h := v], i) == if v.buf == i then Holders(refs, i) + {h} else Holders(refs, i);
  }

  lemma HoldersRemove(refs: map<nat, Handle>, h: nat, i: int)
    requires h in refs
    ensures |Holders(refs - {h}, i)| == |Holders(refs, i)| - if refs[h].buf == i then 1 else 0
  {
    assert Holders(refs - {h}, i) == Holders(refs, i) - {h};
  }

  /** A buffer without references has no handle and is not locked. */
  lemma NoHandles(s: Cache, i: nat)
    requires Shape(s) && HandleInv(s) && CountInv(s) && i < NBUF && s.bufs[i].refcnt == 0
    ensures s.bufs[i].owner < 0 && forall g :: g in s.refs ==> s.refs[g].buf != i
  {
    assert Holders(s.refs, i) == {};
    forall g | g in s.refs ensures s.refs[g].buf != i {
      assert g !in Holders(s.refs, i);
    }
  }

  lemma GetCounts(s: Cache, h: nat, dev: nat, b: nat, i: nat)
    requires Inv(s) && Enabled(s, Get(h, dev, b, i))
    ensures var t := Apply(s, Get(h, dev, b, i)); Shape(t) && CountInv(t) && OrderInv(t)
  {
    hide Holders, DataInv, HandleInv, UniqueInv;
    var t := Apply(s, Get(h, dev, b, i));
    forall j | 0 <= j < NBUF ensures t.bufs[j].refcnt == |Holders(t.refs, j)| {
      HoldersAdd(s.refs, h, Handle(i, dev, b, Waiting), j);
    }
  }

  lemma GetHandles(s: Cache, h: nat, dev: nat, b: nat, i: nat)
    requires Inv(s) && Enabled(s, Get(h, dev, b, i))
    ensures var t := Apply(s, Get(h, dev, b, i)); Shape(t) && HandleInv(t) && UniqueInv(t)
  {
    hide Holders, DataInv, CountInv, OrderInv;
    var t := Apply(s, Get(h, dev, b, i));
    if !Caches(s.bufs[i], dev, b) {
      NoHandles(s, i);
    }
  }

  lemma GetData(s: Cache, h: nat, dev: nat, b: nat, i: nat)
    requires Inv(s) && Enabled(s, Get(h, dev, b, i))
    ensures var t := Apply(s, Get(h, dev, b, i)); Shape(t) && DataInv(t)
  {
    hide Holders, CountInv, OrderInv, UniqueInv;
    var t := Apply(s, Get(h, dev, b, i));
    if !Caches(s.bufs[i], dev, b) {
      NoHandles(s, i);
    }
    assert s.bufs[i].dirty ==> t.bufs[i] == s.bufs[i].(refcnt := s.bufs[i].refcnt + 1);
    forall c: nat | c < |s.disk| && Clean(t, c) ensures t.disk[c] == t.flat[c] {
      CleanBefore(s, t, i, c);
    }
  }

  // ---- brelse ----

  lemma DropCounts(s: Cache, h: nat)
    requires Inv(s) && Enabled(s, Drop(h))
    ensures var t := Apply(s, Drop(h)); Shape(t) && CountInv(t)
  {
    hide Holders, DataInv, HandleInv, UniqueInv, OrderInv;
    var t := Apply(s, Drop(h));
    forall j | 0 <= j < NBUF ensures t.bufs[j].refcnt == |Holders(t.refs, j)| {
      HoldersRemove(s.refs, h, j);
    }
  }

  lemma DropHandles(s: Cache, h: nat)
    requires Inv(s) && Enabled(s, Drop(h))
    ensures var t := Apply(s, Drop(h)); Shape(t) && HandleInv(t) && UniqueInv(t)
  {
    hide Holders, DataInv, CountInv, OrderInv;
  }

  lemma DropData(s: Cache, h: nat)
    requires Inv(s) && Enabled(s, Drop(h))
    ensures var t := Apply(s, Drop(h)); Shape(t) && DataInv(t)
  {
    hide Holders, CountInv, OrderInv, UniqueInv, HandleInv;
    var t, i := Apply(s, Drop(h)), s.refs[h].buf;
    forall c: nat | c < |s.disk| && Clean(t, c) ensures t.disk[c] == t.flat[c] {
      assert Caches(s.bufs[i], DISK, c) ==> Caches(t.bufs[i], DISK, c);
      CleanBefore(s, t, i, c);
    }
  }

  lemma DropOrder(s: Cache, h: nat)
    requires Inv(s) && Enabled(s, Drop(h))
    ensures var t := Apply(s, Drop(h)); Shape(t) && OrderInv(t)
  {
    hide Holders, CountInv, DataInv, UniqueInv, HandleInv;
  }

  // ---- Every step ----

  lemma DataStep(s: Cache, step: Step)
    requires Inv(s) && Enabled(s, step) && (step.Fill? || step.Edit? || step.LogWrite? || step.BWrite?)
    ensures Inv(Apply(s, step))
  {
    hide HandleInv, CountInv, UniqueInv, DataInv, OrderInv, SameUse;
    match step {
      case Fill(h) => FillData(s, h);
      case Edit(h, d) => EditData(s, h, d);
      case LogWrite(h) => LogWriteData(s, h);
      case BWrite(h) => BWriteData(s, h);
    }
    SameUseKeeps(s, Apply(s, step), s.refs[step.h].buf);
  }

  lemma StepInv(s: Cache, step: Step)
    requires Inv(s) && Enabled(s, step)
    ensures Inv(Apply(s, step))
  {
    hide HandleInv, CountInv, UniqueInv, DataInv, OrderInv, Apply;
    match step {
      case Get(h, dev, b, i) =>
        GetCounts(s, h, dev, b, i);
        GetHandles(s, h, dev, b, i);
        GetData(s, h, dev, b, i);
      case Drop(h) =>
        DropCounts(s, h);
        DropHandles(s, h);
        DropData(s, h);
        DropOrder(s, h);
      case Acquire(_) =>
        LockHandles(s, step);
        LockRest(s, step);
        LockData(s, step);
      case Unlock(_) =>
        LockHandles(s, step);
        LockRest(s, step);
        LockData(s, step);
      case _ =>
        DataStep(s, step);
    }
  }

  // ---- Runs ----

  function Initial(disk: seq<Block>): Cache {
    Cache(seq(NBUF, _ => Buf(0, 0, 0, false, false, [], -1)), disk, map[],
          seq(NBUF, i requires 0 <= i < NBUF => NBUF - i), seq(NBUF, i => i), NBUF, disk, {})
  }

  lemma InitialInv(disk: seq<Block>)
    ensures Inv(Initial(disk))
  {
    var s := Initial(disk);
    assert forall i :: Holders(s.refs, i) == {};
  }

  datatype Run = Start(disk: seq<Block>) | Then(before: Run, step: Step)

  ghost function After(r: Run): Cache
    requires Possible(r)
    decreases r, 1
  {
    if r.Start? then Initial(r.disk) else Apply(After(r.before), r.step)
  }

  ghost predicate Possible(r: Run)
    decreases r, 0
  {
    r.Then? ==> Possible(r.before) && Enabled(After(r.before), r.step)
  }

  lemma {:induction false} ReachableInv(r: Run)
    requires Possible(r)
    ensures Inv(After(r))
  {
    if r.Start? {
      InitialInv(r.disk);
    } else {
      ReachableInv(r.before);
      StepInv(After(r.before), r.step);
    }
  }

  ghost predicate Writes(s: Cache, step: Step, b: nat) {
    (step.LogWrite? || step.BWrite?) && step.h in s.refs && s.refs[step.h].buf < |s.bufs| && s.refs[step.h].blockno == b
  }

  ghost function DiskSize(r: Run): nat { if r.Start? then |r.disk| else DiskSize(r.before) }

  /** The data of the last log_write or bwrite of block `b`, or what the disk held at the start. */
  ghost function LastWritten(r: Run, b: nat): Block
    requires Possible(r) && b < DiskSize(r)
  {
    if r.Start? then r.disk[b]
    else if Writes(After(r.before), r.step, b) then BufOf(After(r.before), r.step.h).data
    else LastWritten(r.before, b)
  }

  lemma FlatStep(s: Cache, step: Step, b: nat)
    requires Enabled(s, step) && b < |s.flat| == |s.disk|
    ensures var t := Apply(s, step);
            |t.flat| == |t.disk| == |s.disk| && t.flat[b] == if Writes(s, step, b) then BufOf(s, step.h).data else s.flat[b]
  {
  }

  lemma {:induction false} FlatIsLastWritten(r: Run, b: nat)
    requires Possible(r) && b < DiskSize(r)
    ensures |After(r).disk| == |After(r).flat| == DiskSize(r) && After(r).flat[b] == LastWritten(r, b)
  {
    hide Apply, Enabled, Writes, BufOf;
    if r.Then? {
      FlatIsLastWritten(r.before, b);
      FlatStep(After(r.before), r.step, b);
    }
  }

  /** Whoever holds a buffer that has been read, and has not changed it, sees the last data written to its block:
      the cache is a flat array of blocks. */
  lemma ReadsLastWritten(r: Run, h: nat)
    requires Possible(r) && In(After(r), h, Holding)
    requires BufOf(After(r), h).valid && After(r).refs[h].buf !in After(r).edited
    ensures After(r).refs[h].dev == DISK && After(r).refs[h].blockno < DiskSize(r)
    ensures BufOf(After(r), h).data == LastWritten(r, After(r).refs[h].blockno)
  {
    ReachableInv(r);
    DiskKept(r);
    FlatIsLastWritten(r, After(r).refs[h].blockno);
  }

  lemma {:induction false} DiskKept(r: Run)
    requires Possible(r)
    ensures |After(r).disk| == DiskSize(r)
  {
    if r.Then? {
      DiskKept(r.before);
    }
  }

  /** Two handles never hold the same block. */
  lemma HoldersDiffer(r: Run, g: nat, h: nat)
    requires Possible(r) && g != h && In(After(r), g, Holding) && In(After(r), h, Holding)
    requires After(r).refs[g].dev != 0
    ensures !(After(r).refs[g].dev == After(r).refs[h].dev && After(r).refs[g].blockno == After(r).refs[h].blockno)
  {
    ReachableInv(r);
  }

  /** The buffer that bget recycles is the one least recently released, of those it may recycle. */
  lemma EvictsOldest(r: Run, dev: nat, b: nat, i: nat, j: nat)
    requires Possible(r) && Miss(After(r), dev, b, i)
    requires j < NBUF && j != i && j < |After(r).bufs| && Unused(After(r).bufs[j])
    ensures i < NBUF == |After(r).used| && After(r).used[i] < After(r).used[j]
  {
    ReachableInv(r);
  }

  // ---- Logged blocks ----

  /** Block `b` was passed to log_write and not written to the disk since. */
  ghost predicate Pending(r: Run, b: nat)
    requires Possible(r)
  {
    r.Then? && if Writes(After(r.before), r.step, b) then r.step.LogWrite? else Pending(r.before, b)
  }

  /** A dirty buffer keeps its block, and stays valid and dirty, until it is written to the disk. */
  lemma DirtyStays(s: Cache, step: Step, i: nat)
    requires Inv(s) && Enabled(s, step) && i < NBUF && s.bufs[i].dirty
    requires step.BWrite? ==> s.refs[step.h].buf != i
    ensures var t := Apply(s, step);
            |t.bufs| == NBUF && Caches(t.bufs[i], s.bufs[i].dev, s.bufs[i].blockno) && t.bufs[i].dirty && t.bufs[i].valid
  {
    hide Holders, CountInv, OrderInv, UniqueInv;
  }

  /** A buffer becomes dirty by log_write of its block only. */
  lemma DirtyBefore(s: Cache, step: Step, i: nat)
    requires Inv(s) && Enabled(s, step) && i < NBUF && |Apply(s, step).bufs| == NBUF && Apply(s, step).bufs[i].dirty
    requires step.LogWrite? ==> s.refs[step.h].buf != i
    ensures s.bufs[i].dirty && Caches(Apply(s, step).bufs[i], s.bufs[i].dev, s.bufs[i].blockno)
    ensures step.BWrite? ==> s.refs[step.h].buf != i
  {
    hide Holders, CountInv, OrderInv, UniqueInv;
  }

  /** The buffer that a step writes is the only one of its block. */
  lemma WritesOwnBlock(s: Cache, step: Step, b: nat, i: nat)
    requires Inv(s) && Enabled(s, step) && (step.LogWrite? || step.BWrite?) && i < NBUF && Caches(s.bufs[i], DISK, b)
    ensures Writes(s, step, b) <==> s.refs[step.h].buf == i
  {
    hide Holders, CountInv, OrderInv, DataInv;
    var j := s.refs[step.h].buf;
    assert Caches(s.bufs[j], DISK, s.refs[step.h].blockno);
  }

  lemma StillDirty(s: Cache, step: Step, b: nat, i: nat)
    requires Inv(s) && Enabled(s, step) && !Writes(s, step, b)
    requires i < NBUF && Caches(s.bufs[i], DISK, b) && s.bufs[i].dirty
    ensures var t := Apply(s, step); |t.bufs| == NBUF && Caches(t.bufs[i], DISK, b) && t.bufs[i].dirty
  {
    hide Holders, HandleInv, CountInv, OrderInv, UniqueInv, DataInv, Writes;
    if step.BWrite? {
      WritesOwnBlock(s, step, b, i);
    }
    DirtyStays(s, step, i);
  }

  lemma WasDirty(s: Cache, step: Step, b: nat, i: nat)
    requires Inv(s) && Enabled(s, step) && !Writes(s, step, b)
    requires i < NBUF && |Apply(s, step).bufs| == NBUF && Caches(Apply(s, step).bufs[i], DISK, b) && Apply(s, step).bufs[i].dirty
    ensures Caches(s.bufs[i], DISK, b) && s.bufs[i].dirty
  {
    hide Holders, HandleInv, CountInv, OrderInv, UniqueInv, DataInv, Writes;
    if step.LogWrite? {
      assert Caches(s.bufs[i], DISK, b);
      WritesOwnBlock(s, step, b, i);
    }
    DirtyBefore(s, step, i);
  }

  lemma OtherStep(s: Cache, step: Step, b: nat)
    requires Inv(s) && Enabled(s, step) && !Writes(s, step, b) && Shape(Apply(s, step))
    ensures Clean(Apply(s, step), b) <==> Clean(s, b)
  {
    hide Apply, Holders, HandleInv, CountInv, OrderInv, UniqueInv, DataInv, Writes, Enabled;
    var t := Apply(s, step);
    if i :| 0 <= i < NBUF && Caches(s.bufs[i], DISK, b) && s.bufs[i].dirty {
      StillDirty(s, step, b, i);
    }
    if i :| 0 <= i < NBUF && Caches(t.bufs[i], DISK, b) && t.bufs[i].dirty {
      WasDirty(s, step, b, i);
    }
  }

  lemma WriteStep(s: Cache, step: Step, b: nat)
    requires Inv(s) && Enabled(s, step) && Writes(s, step, b) && Shape(Apply(s, step))
    ensures Clean(Apply(s, step), b) <==> step.BWrite?
  {
    hide Holders, CountInv, OrderInv, DataInv;
    var t, j := Apply(s, step), s.refs[step.h].buf;
    assert Caches(t.bufs[j], DISK, b);
    assert forall i :: 0 <= i < NBUF && Caches(t.bufs[i], DISK, b) ==> Caches(s.bufs[i], DISK, b);
  }

  /** In every run, a block is pending exactly when some buffer that caches it is dirty. */
  lemma {:induction false} PendingIsDirty(r: Run, b: nat)
    requires Possible(r)
    ensures Shape(After(r)) && (Pending(r, b) <==> !Clean(After(r), b))
  {
    hide Apply, Enabled, Writes, HandleInv, CountInv, OrderInv, UniqueInv, DataInv, Clean;
    ReachableInv(r);
    if r.Start? {
      NothingDirty(r.disk, b);
    } else {
      var s := After(r.before);
      ReachableInv(r.before);
      PendingIsDirty(r.before, b);
      if Writes(s, r.step, b) {
        WriteStep(s, r.step, b);
        OneOfTwo(s, r.step, b);
      } else {
        OtherStep(s, r.step, b);
      }
    }
  }

  lemma NothingDirty(disk: seq<Block>, b: nat)
    ensures Shape(Initial(disk)) && Clean(Initial(disk), b)
  {
  }

  lemma OneOfTwo(s: Cache, step: Step, b: nat)
    requires Writes(s, step, b)
    ensures step.LogWrite? <==> !step.BWrite?
  {
  }

  /** bget finds a dirty buffer, and cannot recycle it. */
  lemma DirtyIsFound(s: Cache, b: nat, i: nat)
    requires Inv(s) && i < NBUF && Caches(s.bufs[i], DISK, b) && s.bufs[i].dirty
    ensures s.bufs[i].valid
    ensures forall j :: 0 <= j < NBUF && Caches(s.bufs[j], DISK, b) ==> j == i
    ensures forall h, j :: Enabled(s, Get(h, DISK, b, j)) ==> j == i
    ensures forall h, dev, c :: Enabled(s, Get(h, dev, c, i)) ==> dev == DISK && c == b
  {
    hide Holders, CountInv, OrderInv, HandleInv;
  }

  /** From log_write until bwrite puts it on the disk, in every run, a block has exactly one buffer: it is valid and
      dirty, bget finds it and cannot recycle it, and it holds the data last written unless its holder is changing it. */
  lemma LoggedStays(r: Run, b: nat) returns (i: nat)
    requires Possible(r) && Pending(r, b) && b < DiskSize(r)
    ensures var s := After(r);
            && i < NBUF == |s.bufs| && Caches(s.bufs[i], DISK, b) && s.bufs[i].valid && s.bufs[i].dirty
            && (i !in s.edited ==> s.bufs[i].data == LastWritten(r, b))
            && (forall j :: 0 <= j < NBUF && Caches(s.bufs[j], DISK, b) ==> j == i)
            && (forall h, j :: Enabled(s, Get(h, DISK, b, j)) ==> j == i)
            && (forall h, dev, c :: Enabled(s, Get(h, dev, c, i)) ==> dev == DISK && c == b)
  {
    hide Pending, LastWritten, After, Holders, CountInv, OrderInv, HandleInv, UniqueInv, Enabled;
    ReachableInv(r);
    PendingIsDirty(r, b);
    FlatIsLastWritten(r, b);
    var s := After(r);
    i :| 0 <= i < NBUF && Caches(s.bufs[i], DISK, b) && s.bufs[i].dirty;
    DirtyIsFound(s, b, i);
  }
}
