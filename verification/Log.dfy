/** The log as the kernel keeps it: an in-memory header updated in place and loops that copy blocks.

    `trace` records the disk after every block write, which are the points a crash may leave behind. */
module Log {
  import opened Params
  import opened LogDisk
  import opened LogProtocol

  class Log {
    const l: Layout
    var disk: Disk
    var cache: map<int, Block>   // contents of buffers pinned by log_write
    const block: array<int>      // lh.block
    var n: nat                   // lh.n
    var outstanding: nat
    var committing: bool
    ghost var trace: seq<Disk>

    /** Block numbers in the in-memory header. */
    ghost function Lh(): seq<int>
      reads this, block
      requires n <= block.Length
    {
      block[..n]
    }

    ghost predicate Valid()
      reads this, block
    {
      && block.Length == LOGSIZE && n <= LOGSIZE
      && Formatted(l, disk) && l.start + LOGSIZE < |disk| && Loggable(l, disk, Lh())
      && forall b :: b in cache <==> b in Lh()
    }

    /** What the buffer cache holds for the logged blocks. */
    ghost function Pinned(): seq<Block>
      reads this, block
      requires Valid()
    {
      seq(n, i requires 0 <= i < n reads this, block requires Valid() => assert block[i] in Lh(); cache[block[i]])
    }

    /** initlog: the log is recovered before the first operation. */
    constructor (layout: Layout, d: Disk)
      requires Readable(layout, d) && layout.start + LOGSIZE < |d|
      ensures Valid() && l == layout && disk == Recover(layout, d) && n == 0 && outstanding == 0 && !committing
    {
      l, disk, cache, block, n := layout, d, map[], new int[LOGSIZE], 0;
      outstanding, committing, trace := 0, false, [];
      new;
      hide Recover, Head;
      RecoverFromLog();
      RecoverInstalls(l, d);
      assert Lh() == [];
    }

    /** One atomic block write. */
    method BlockWrite(b: nat, data: Block)
      requires b < |disk|
      modifies this`disk, this`trace
      ensures disk == old(disk)[b := data]
      ensures trace == old(trace) + [disk]
    {
      disk := disk[b := data];
      trace := trace + [disk];
    }

    /** One turn of begin_op's loop under the lock: admit the operation or go to sleep. */
    method TryBegin() returns (admitted: bool)
      requires Valid()
      modifies this`outstanding
      ensures admitted == (!committing && HasRoom(n, old(outstanding)))
      ensures outstanding == old(outstanding) + if admitted then 1 else 0
    {
      if committing {
        admitted := false;
      } else if n + (outstanding + 1) * MAXOPBLOCKS > LOGSIZE {
        admitted := false;
      } else {
        outstanding := outstanding + 1;
        admitted := true;
      }
    }

    /** What log_write tests before it takes the lock; false stands for a panic. */
    method LogGuard() returns (ok: bool)
      ensures ok == (!TooBig(l, n) && outstanding >= 1)
    {
      if n >= LOGSIZE || n >= l.size - 1 {
        return false;
      }
      if outstanding < 1 {
        return false;
      }
      return true;
    }

    /** The locked part of log_write, for a buffer with contents `data`.  Other processes may have logged blocks since
        this one was past the test; the reservation says that the header still has a slot. */
    method LogAppend(b: nat, data: Block)
      requires Valid() && b < |disk| && !InLog(l, b) && (b in Lh() || n < LOGSIZE)
      modifies this`n, this`cache, block
      ensures Valid() && Lh() == Append(old(Lh()), b) && cache == old(cache)[b := data]
    {
      var i := 0;
      while i < n && block[i] != b
        invariant 0 <= i <= n
        invariant forall j :: 0 <= j < i ==> block[j] != b
      {
        i := i + 1;
      }
      block[i] := b;
      if i == n {
        n := n + 1;
        assert Lh() == old(Lh()) + [b];
      } else {
        assert Lh() == old(Lh());
      }
      cache := cache[b := data];
    }

    /** The locked part of end_op: true if this caller must commit. */
    method EndOpLocked() returns (doCommit: bool)
      requires outstanding >= 1 && !committing
      modifies this`outstanding, this`committing
      ensures outstanding == old(outstanding) - 1
      ensures doCommit == (outstanding == 0) == committing
    {
      outstanding := outstanding - 1;
      doCommit := false;
      if outstanding == 0 {
        doCommit := true;
        committing := true;
      }
    }

    /** Copy the pinned buffers to the log blocks. */
    method CopyToLog()
      requires Valid()
      modifies this`disk, this`trace
      ensures disk == WriteLog(l, old(disk), old(Pinned()), n)
      ensures |trace| == |old(trace)| + n && old(trace) <= trace
      ensures forall k :: |old(trace)| <= k < |trace| ==>
                trace[k] == WriteLog(l, old(disk), old(Pinned()), k - |old(trace)| + 1)
    {
      ghost var data := Pinned();
      var tail := 0;
      while tail < n
        invariant 0 <= tail <= n
        invariant disk == WriteLog(l, old(disk), data, tail)
        invariant |trace| == |old(trace)| + tail && old(trace) <= trace
        invariant forall k :: |old(trace)| <= k < |trace| ==>
                    trace[k] == WriteLog(l, old(disk), data, k - |old(trace)| + 1)
      {
        assert block[tail] == Lh()[tail];
        BlockWrite(l.start + tail + 1, cache[block[tail]]);
        tail := tail + 1;
      }
    }

    /** Write the in-memory header over the header block. */
    method PutHeader()
      requires Formatted(l, disk) && n <= LOGSIZE == block.Length
      modifies this`disk, this`trace
      ensures disk == WriteHead(l, old(disk), Lh())
      ensures trace == old(trace) + [disk]
    {
      var b := disk[l.start];
      var hb := b[0 := n];
      var i := 0;
      while i < n
        invariant 0 <= i <= n && |hb| == |b| && disk == old(disk) && trace == old(trace)
        invariant hb == [n] + block[..][..i] + b[1 + i..]
      {
        HeaderStep(n, block[..], b, i);
        hb := hb[1 + i := block[i]];
        i := i + 1;
      }
      assert block[..][..n] == Lh();
      BlockWrite(l.start, hb);
    }

    /** Copy the log blocks to their home blocks; iderw unpins each. */
    method InstallTrans()
      requires block.Length == LOGSIZE && n <= LOGSIZE
      requires Formatted(l, disk) && Loggable(l, disk, Lh())
      modifies this`disk, this`trace, this`cache
      ensures disk == Install(l, old(disk), Lh(), n)
      ensures InstallTrace(l, old(disk), Lh(), old(trace), trace, n)
      ensures forall b :: b in cache ==> b in old(cache)
      ensures forall b :: b in Lh() ==> b !in cache
    {
      hide Install, Loggable, Unpinned, InstallTrace;
      ghost var lh := Lh();
      UnpinFirst(cache, lh);
      TraceFirst(l, disk, lh, trace);
      var tail := 0;
      while tail < n
        invariant 0 <= tail <= n
        invariant disk == Install(l, old(disk), lh, tail)
        invariant InstallTrace(l, old(disk), lh, old(trace), trace, tail)
        invariant Unpinned(old(cache), cache, lh, tail)
      {
        InstallNext(l, old(disk), lh, tail);
        UnpinNext(old(cache), cache, lh, tail);
        TraceNext(l, old(disk), lh, old(trace), trace, tail);
        BlockWrite(block[tail], disk[l.start + tail + 1]);
        cache := cache - {block[tail]};
        tail := tail + 1;
      }
      UnpinLast(old(cache), cache, lh);
    }

    /** install_trans, then the cleared header, as both commit and recovery end. */
    method InstallAndClear()
      requires block.Length == LOGSIZE && n <= LOGSIZE
      requires Formatted(l, disk) && Loggable(l, disk, Lh())
      modifies this`disk, this`trace, this`cache, this`n
      ensures n == 0 && (forall b :: b in cache ==> b in old(cache) && b !in old(Lh()))
      ensures |trace| == |old(trace)| + old(n) + 1 && old(trace) <= trace
      ensures disk == InstallPoint(l, old(disk), old(Lh()), old(n) + 1)
      ensures forall k :: |old(trace)| <= k < |trace| ==>
                trace[k] == InstallPoint(l, old(disk), old(Lh()), k - |old(trace)| + 1)
    {
      hide Install, Head, PutHead;
      assert l.start !in Lh();
      InstallTrans();
      n := 0;
      PutHeader();
    }

    /** commit: its block writes are exactly the commit points of the transaction, in order. */
    method Commit()
      requires Valid()
      modifies this`disk, this`trace, this`cache, this`n
      ensures Valid() && n == 0 && (forall b :: b !in cache) && old(trace) <= trace
      ensures |trace| == |old(trace)| + CommitWrites(old(n))
      ensures forall k :: |old(trace)| <= k < |trace| ==>
                trace[k] == CommitPoint(l, old(disk), old(Lh()), old(Pinned()), k - |old(trace)| + 1)
      ensures disk == CommitPoint(l, old(disk), old(Lh()), old(Pinned()), CommitWrites(old(n)))
    {
      hide WriteLog, InstallPoint, CommitPoint, Head, Loggable, PutHead;
      ghost var data, lh := Pinned(), Lh();
      NoCommit(l, disk, lh, data);
      if n > 0 {
        CopyToLog();
        PutHeader();
        assert disk == Logged(l, old(disk), lh, data);
        ghost var logged := trace;
        InstallAndClear();
        assert forall k :: 0 <= k < |logged| ==> trace[k] == logged[k];
        TraceParts(l, old(disk), lh, data, trace, |old(trace)|);
        CommitKeepsFormat(l, old(disk), lh, data, 2 * |lh| + 2);
        EmptyLog(l, disk);
        assert Lh() == [];
      }
    }

    /** end_op: the last operation to end commits, and everything is on the disk when it returns. */
    method EndOp()
      requires Valid() && outstanding >= 1 && !committing
      modifies this
      ensures Valid() && outstanding == old(outstanding) - 1 && !committing
      ensures outstanding > 0 ==> disk == old(disk) && trace == old(trace) && cache == old(cache) && n == old(n)
      ensures outstanding == 0 ==>
                && n == 0 && (forall b :: b !in cache) && |trace| == |old(trace)| + CommitWrites(old(n))
                && disk == CommitPoint(l, old(disk), old(Lh()), old(Pinned()), CommitWrites(old(n)))
    {
      hide CommitPoint;
      ghost var data := Pinned();
      var doCommit := EndOpLocked();
      if doCommit {
        assert Pinned() == data;
        Commit();
        committing := false;
      }
    }

    /** read_head */
    method ReadHead()
      requires block.Length == LOGSIZE && Readable(l, disk)
      modifies this`n, block
      ensures n <= LOGSIZE && Lh() == Head(l, disk)
    {
      var b := disk[l.start];
      n := b[0];
      var i := 0;
      while i < n
        invariant 0 <= i <= n && n == b[0]
        invariant block[..i] == b[1..1 + i]
      {
        block[i] := b[1 + i];
        i := i + 1;
      }
    }

    /** recover_from_log: its block writes are exactly the recovery points of the disk, in order. */
    method RecoverFromLog()
      requires block.Length == LOGSIZE && Readable(l, disk) && cache == map[]
      modifies this`disk, this`trace, this`cache, this`n, block
      ensures n == 0 && (forall b :: b !in cache) && disk == Recover(l, old(disk))
      ensures |trace| == |old(trace)| + |Head(l, old(disk))| + 1 && old(trace) <= trace
      ensures forall k :: |old(trace)| <= k < |trace| ==>
                trace[k] == RecoveryPoint(l, old(disk), k - |old(trace)| + 1)
    {
      hide InstallPoint, Head;
      ReadHead();
      InstallAndClear();
    }
  }

  /** The trace has grown by the first `k` install points. */
  ghost predicate InstallTrace(l: Layout, d: Disk, lh: seq<int>, before: seq<Disk>, after: seq<Disk>, k: nat)
    requires Formatted(l, d) && Loggable(l, d, lh)
  {
    && k <= |lh| && |after| == |before| + k && before <= after
    && forall j :: |before| <= j < |after| ==> after[j] == Install(l, d, lh, j - |before| + 1)
  }

  lemma TraceFirst(l: Layout, d: Disk, lh: seq<int>, t: seq<Disk>)
    requires Formatted(l, d) && Loggable(l, d, lh)
    ensures InstallTrace(l, d, lh, t, t, 0)
  {
  }

  lemma TraceNext(l: Layout, d: Disk, lh: seq<int>, before: seq<Disk>, after: seq<Disk>, k: nat)
    requires Formatted(l, d) && Loggable(l, d, lh) && k < |lh| && InstallTrace(l, d, lh, before, after, k)
    ensures InstallTrace(l, d, lh, before, after + [Install(l, d, lh, k + 1)], k + 1)
  {
    hide Install;
  }

  /** The buffers of the first `k` logged blocks are no longer pinned. */
  ghost predicate Unpinned(was: map<int, Block>, cache: map<int, Block>, lh: seq<int>, k: nat) {
    k <= |lh| && (forall b :: b in cache ==> b in was) && forall i :: 0 <= i < k ==> lh[i] !in cache
  }

  lemma UnpinFirst(cache: map<int, Block>, lh: seq<int>)
    ensures Unpinned(cache, cache, lh, 0)
  {
  }

  lemma UnpinLast(was: map<int, Block>, cache: map<int, Block>, lh: seq<int>)
    requires Unpinned(was, cache, lh, |lh|)
    ensures (forall b :: b in cache ==> b in was) && forall b :: b in lh ==> b !in cache
  {
  }

  lemma UnpinNext(was: map<int, Block>, cache: map<int, Block>, lh: seq<int>, k: nat)
    requires k < |lh| && Unpinned(was, cache, lh, k)
    ensures Unpinned(was, cache - {lh[k]}, lh, k + 1)
  {
  }

  lemma HeaderStep(n: int, s: seq<int>, b: seq<int>, i: nat)
    requires i < |s| && 1 + i < |b|
    ensures ([n] + s[..i] + b[1 + i..])[1 + i := s[i]] == [n] + s[..i + 1] + b[2 + i..]
  {
  }

  lemma EmptyLog(l: Layout, d: Disk)
    requires Formatted(l, d)
    ensures Loggable(l, d, [])
  {
  }

  lemma NoCommit(l: Layout, d: Disk, lh: seq<int>, data: seq<Block>)
    requires Formatted(l, d) && Loggable(l, d, lh) && |data| == |lh|
    ensures CommitPoint(l, d, lh, data, 0) == d
    ensures CommitPoint(l, d, lh, data, 2 * |lh| + 2) == InstallPoint(l, Logged(l, d, lh, data), lh, |lh| + 1)
  {
  }

  /** The log blocks, the header, then the installs. */
  lemma TraceParts(l: Layout, d: Disk, lh: seq<int>, data: seq<Block>, t: seq<Disk>, a: nat)
    requires Formatted(l, d) && Loggable(l, d, lh) && |data| == |lh| && |t| == a + 2 * |lh| + 2
    requires forall k :: a <= k < a + |lh| ==> t[k] == WriteLog(l, d, data, k - a + 1)
    requires t[a + |lh|] == Logged(l, d, lh, data)
    requires forall k :: a + |lh| + 1 <= k < |t| ==> t[k] == InstallPoint(l, Logged(l, d, lh, data), lh, k - a - |lh|)
    ensures forall k :: a <= k < |t| ==> t[k] == CommitPoint(l, d, lh, data, k - a + 1)
  {
    hide WriteLog, Head, PutHead, Logged;
  }
}
