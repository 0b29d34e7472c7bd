/** The buffer cache and the log together: log_write pins a buffer and notes its block, install_trans writes it home.

    The log's own model keeps a map from noted blocks to their contents.  Here it is shown that the buffers are that map. */
module LogCache {
  import opened BufferCache
  import opened LogDisk
  import LogProtocol

  /** `lh` are the blocks noted in the header, the first `installed` of them written home; `pinned` is the map of the log. */
  datatype System = System(cache: Cache, lh: seq<int>, installed: nat, committing: bool, pinned: map<int, Block>)

  datatype Act =
    | Use(step: Step)          // a section of the cache that neither logs nor writes
    | Note(h: nat)             // log_write
    | Commit
    | WriteLogBlock(h: nat)    // bwrite of a block of the log area
    | InstallBlock(h: nat)     // bwrite of the next home block in install_trans
    | Clear

  ghost function BlockOf(s: System, h: nat): int {
    if h in s.cache.refs then s.cache.refs[h].blockno else -1
  }

  /** bwrite is called by the log only. */
  ghost predicate CanAct(l: Layout, s: System, act: Act) {
    match act
    case Use(step) => !step.LogWrite? && !step.BWrite? && Enabled(s.cache, step)
    case Note(h) => !s.committing && Enabled(s.cache, LogWrite(h)) && !InLog(l, BlockOf(s, h))
    case Commit => !s.committing
    case WriteLogBlock(h) => s.committing && Enabled(s.cache, BWrite(h)) && InLog(l, BlockOf(s, h))
    case InstallBlock(h) =>
      s.committing && s.installed < |s.lh| && Enabled(s.cache, BWrite(h)) && BlockOf(s, h) == s.lh[s.installed]
    case Clear => s.committing && s.installed == |s.lh|
  }

  ghost function Perform(l: Layout, s: System, act: Act): System
    requires CanAct(l, s, act)
  {
    match act
    case Use(step) => s.(cache := Apply(s.cache, step))
    case Note(h) =>
      var b := BlockOf(s, h);
      s.(cache := Apply(s.cache, LogWrite(h)), lh := LogProtocol.Append(s.lh, b), pinned := s.pinned[b := BufOf(s.cache, h).data])
    case Commit => s.(committing := true)
    case WriteLogBlock(h) => s.(cache := Apply(s.cache, BWrite(h)))
    case InstallBlock(h) =>
      s.(cache := Apply(s.cache, BWrite(h)), installed := s.installed + 1, pinned := s.pinned - {BlockOf(s, h)})
    case Clear => s.(lh := [], installed := 0, committing := false, pinned := map[])
  }

  datatype History = Boot(disk: seq<Block>) | Also(before: History, act: Act)

  ghost predicate Happens(l: Layout, r: History)
    decreases r, 0
  {
    r.Also? ==> Happens(l, r.before) && CanAct(l, Now(l, r.before), r.act)
  }

  ghost function Now(l: Layout, r: History): System
    requires Happens(l, r)
    decreases r, 1
  {
    if r.Boot? then System(Initial(r.disk), [], 0, false, map[]) else Perform(l, Now(l, r.before), r.act)
  }

  /** The steps of the cache alone. */
  ghost function CacheRun(r: History): Run {
    match r
    case Boot(disk) => Start(disk)
    case Also(before, Use(step)) => Then(CacheRun(before), step)
    case Also(before, Note(h)) => Then(CacheRun(before), LogWrite(h))
    case Also(before, WriteLogBlock(h)) => Then(CacheRun(before), BWrite(h))
    case Also(before, InstallBlock(h)) => Then(CacheRun(before), BWrite(h))
    case Also(before, _) => CacheRun(before)
  }

  lemma {:induction false} CacheRuns(l: Layout, r: History)
    requires Happens(l, r)
    ensures Possible(CacheRun(r)) && After(CacheRun(r)) == Now(l, r).cache
  {
    hide Apply, Enabled;
    if r.Also? {
      CacheRuns(l, r.before);
    }
  }

  /** Noted blocks are distinct and outside the log area, and nothing is installed unless a commit runs. */
  ghost predicate NotedInv(l: Layout, s: System) {
    && Distinct(s.lh) && s.installed <= |s.lh| && (!s.committing ==> s.installed == 0)
    && (forall b :: b in s.lh ==> !InLog(l, b))
    && (forall b :: b in s.pinned <==> b in s.lh[s.installed..])
  }

  lemma AppendInv(l: Layout, s: System, b: int, data: Block)
    requires NotedInv(l, s) && !s.committing && !InLog(l, b)
    ensures NotedInv(l, s.(lh := LogProtocol.Append(s.lh, b), pinned := s.pinned[b := data]))
  {
    assert s.lh[0..] == s.lh;
    var t := LogProtocol.Append(s.lh, b);
    assert t[0..] == t;
  }

  lemma InstallInv(l: Layout, s: System)
    requires NotedInv(l, s) && s.committing && s.installed < |s.lh|
    ensures NotedInv(l, s.(installed := s.installed + 1, pinned := s.pinned - {s.lh[s.installed]}))
  {
    var k := s.installed;
    assert s.lh[k..] == [s.lh[k]] + s.lh[k + 1..];
    assert forall j :: k < j < |s.lh| ==> s.lh[j] != s.lh[k];
  }

  lemma NotedStep(l: Layout, s: System, act: Act)
    requires NotedInv(l, s) && CanAct(l, s, act)
    ensures NotedInv(l, Perform(l, s, act))
  {
    hide Apply;
    match act
    case Note(h) => AppendInv(l, s, BlockOf(s, h), BufOf(s.cache, h).data);
    case InstallBlock(h) => InstallInv(l, s);
    case _ =>
  }

  lemma {:induction false} NotedHolds(l: Layout, r: History)
    requires Happens(l, r)
    ensures NotedInv(l, Now(l, r))
  {
    hide Perform, CanAct;
    if r.Also? {
      NotedHolds(l, r.before);
      NotedStep(l, Now(l, r.before), r.act);
    }
  }

  /** Which step writes block `b`. */
  lemma WritesIs(s: Cache, step: Step, b: nat)
    requires Enabled(s, step)
    ensures Writes(s, step, b) <==> (step.LogWrite? || step.BWrite?) && step.h in s.refs && s.refs[step.h].blockno == b
  {
  }

  /** The map says which blocks wait to be written home, and what was last logged for them. */
  lemma {:induction false} PinnedIsPending(l: Layout, r: History, b: nat)
    requires Happens(l, r)
    ensures Possible(CacheRun(r)) && (b in Now(l, r).pinned <==> Pending(CacheRun(r), b))
    ensures b in Now(l, r).pinned && b < DiskSize(CacheRun(r)) ==> Now(l, r).pinned[b] == LastWritten(CacheRun(r), b)
  {
    hide Apply, Enabled, Writes, NotedInv;
    CacheRuns(l, r);
    if r.Also? {
      var s := Now(l, r.before);
      CacheRuns(l, r.before);
      PinnedIsPending(l, r.before, b);
      NotedHolds(l, r.before);
      match r.act
      case Use(step) => WritesIs(s.cache, step, b);
      case Note(h) => WritesIs(s.cache, LogWrite(h), b);
      case Commit =>
      case WriteLogBlock(h) =>
        WritesIs(s.cache, BWrite(h), b);
        NotPinned(l, s, BlockOf(s, h));
      case InstallBlock(h) => WritesIs(s.cache, BWrite(h), b);
      case Clear => NothingPinned(l, s, b);
    }
  }

  lemma NotPinned(l: Layout, s: System, b: int)
    requires NotedInv(l, s) && InLog(l, b)
    ensures b !in s.pinned
  {
  }

  lemma NothingPinned(l: Layout, s: System, b: int)
    requires NotedInv(l, s) && s.installed == |s.lh|
    ensures b !in s.pinned
  {
  }

  /** In every history of both together: a block that is noted and not yet installed has exactly one buffer, valid and
      dirty, which bget finds and cannot recycle, with the contents that the log's map has for it unless its holder is
      changing it.  So write_log copies what was logged.  No other block has a dirty buffer. */
  lemma MapIsTheBuffers(l: Layout, r: History, b: nat)
    requires Happens(l, r) && b < DiskSize(CacheRun(r))
    ensures var s := Now(l, r);
            && (b in s.pinned <==> s.installed <= |s.lh| && b in s.lh[s.installed..])
            && (b in s.pinned <==> exists i :: Pins(s.cache, i, b))
            && (b in s.pinned ==> exists i :: Pins(s.cache, i, b) && OnlyBuffer(s.cache, i, b)
                                              && (i !in s.cache.edited ==> s.cache.bufs[i].data == s.pinned[b]))
  {
    hide Apply, Enabled, Writes, Pending, LastWritten, Possible, After;
    NotedHolds(l, r);
    CacheRuns(l, r);
    PinnedIsPending(l, r, b);
    PendingIsDirty(CacheRun(r), b);
    var s := Now(l, r);
    if b in s.pinned {
      var i := LoggedStays(CacheRun(r), b);
      assert Pins(s.cache, i, b) && OnlyBuffer(s.cache, i, b);
    } else {
      assert forall i :: !Pins(s.cache, i, b);
    }
  }

  /** Buffer `i` is a dirty, valid buffer of block `b`. */
  ghost predicate Pins(c: Cache, i: int, b: nat) {
    0 <= i < NBUF == |c.bufs| && Caches(c.bufs[i], DISK, b) && c.bufs[i].valid && c.bufs[i].dirty
  }

  /** bget finds buffer `i` for block `b`, and recycles it for no other. */
  ghost predicate OnlyBuffer(c: Cache, i: int, b: nat) {
    && (forall h, j :: Enabled(c, Get(h, DISK, b, j)) ==> j == i)
    && (forall h, dev, x, j :: Enabled(c, Get(h, dev, x, j)) && j == i ==> dev == DISK && x == b)
  }
}
