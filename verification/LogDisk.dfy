/** The redo log as a sequence of single-block disk writes.

    A block is the sequence of its 32-bit words.  The header block keeps the number of logged
    blocks in word 0 and their home block numbers in the words after it; whatever follows them is
    stale and is preserved.  One block write is atomic, and a crash may come between any two. */
module LogDisk {
  import opened Params

  type Block = seq<int>
  type Disk = seq<Block>

  /** Position of the log on disk: header at `start`, log blocks up to `start + size`. */
  datatype Layout = Layout(start: nat, size: nat)

  ghost predicate InLog(l: Layout, b: int) {
    l.start <= b < l.start + l.size
  }

  ghost predicate Formatted(l: Layout, d: Disk) {
    1 <= l.size && l.start + l.size <= |d| && LOGSIZE < |d[l.start]|
  }

  ghost predicate Distinct(s: seq<int>) {
    forall i, j :: 0 <= i < j < |s| ==> s[i] != s[j]
  }

  /** `lh` fits the header and has a block each after it, if perhaps beyond the log area: distinct home blocks. */
  ghost predicate Loggable(l: Layout, d: Disk, lh: seq<int>) {
    && |lh| <= LOGSIZE
    && l.start + |lh| < |d|
    && Distinct(lh)
    && forall i :: 0 <= i < |lh| ==> 0 <= lh[i] < |d| && !InLog(l, lh[i])
  }

  /** `lh` is a transaction that also fits the log area. */
  ghost predicate Transaction(l: Layout, d: Disk, lh: seq<int>) {
    Loggable(l, d, lh) && |lh| < l.size
  }

  /** The header on disk describes a transaction. */
  ghost predicate Readable(l: Layout, d: Disk) {
    Formatted(l, d) && 0 <= d[l.start][0] <= LOGSIZE && Transaction(l, d, Head(l, d))
  }

  /** Home block numbers recorded in the header on disk. */
  ghost function Head(l: Layout, d: Disk): seq<int>
    requires Formatted(l, d) && 0 <= d[l.start][0] <= LOGSIZE
  {
    d[l.start][1..1 + d[l.start][0]]
  }

  /** Header block `b` with its count and first entries overwritten by `lh`. */
  function PutHead(b: Block, lh: seq<int>): Block
    requires |lh| <= LOGSIZE < |b|
  {
    [|lh|] + lh + b[1 + |lh|..]
  }

  function WriteHead(l: Layout, d: Disk, lh: seq<int>): Disk
    requires |lh| <= LOGSIZE && l.start < |d| && LOGSIZE < |d[l.start]|
  {
    d[l.start := PutHead(d[l.start], lh)]
  }

  /** Disk after the first `k` log blocks have been written. */
  ghost function WriteLog(l: Layout, d: Disk, data: seq<Block>, k: nat): (r: Disk)
    requires k <= |data| && l.start + |data| < |d|
    ensures |r| == |d|
    ensures forall b :: 0 <= b < |d| && !(l.start < b <= l.start + k) ==> r[b] == d[b]
    ensures forall i :: 0 <= i < k ==> r[l.start + 1 + i] == data[i]
  {
    if k == 0 then d else WriteLog(l, d, data, k - 1)[l.start + k := data[k - 1]]
  }

  /** Disk after the first `k` log blocks have been copied to their home blocks. */
  ghost function Install(l: Layout, d: Disk, lh: seq<int>, k: nat): (r: Disk)
    requires Formatted(l, d) && Loggable(l, d, lh) && k <= |lh|
    ensures |r| == |d| && (k == 0 ==> r == d)
    ensures forall b :: InLog(l, b) ==> r[b] == d[b]
    ensures forall b :: 0 <= b < |d| && b !in lh ==> r[b] == d[b]
    ensures |lh| < l.size ==> forall i :: 0 <= i < k ==> r[lh[i]] == d[l.start + 1 + i]
  {
    if k == 0 then d
    else
      var q := Install(l, d, lh, k - 1);
      q[lh[k - 1] := q[l.start + k]]
  }

  lemma InstallNext(l: Layout, d: Disk, lh: seq<int>, k: nat)
    requires Formatted(l, d) && Loggable(l, d, lh) && k < |lh|
    ensures 0 <= lh[k] < |d| && l.start + k + 1 < |d|
    ensures var r := Install(l, d, lh, k); Install(l, d, lh, k + 1) == r[lh[k] := r[l.start + k + 1]]
  {
  }

  /** Disk after `k` writes of installing `lh` and then clearing the header. */
  ghost function InstallPoint(l: Layout, d: Disk, lh: seq<int>, k: nat): (r: Disk)
    requires Formatted(l, d) && Loggable(l, d, lh) && k <= |lh| + 1
    ensures |r| == |d|
  {
    if k <= |lh| then Install(l, d, lh, k) else WriteHead(l, Install(l, d, lh, |lh|), [])
  }

  /** Disk after `k` writes of recovery, which installs what the header on disk says. */
  ghost function RecoveryPoint(l: Layout, d: Disk, k: nat): (r: Disk)
    requires Readable(l, d) && k <= |Head(l, d)| + 1
    ensures |r| == |d|
  {
    InstallPoint(l, d, Head(l, d), k)
  }

  /** What recovery that is not interrupted makes of disk `d`. */
  ghost function Recover(l: Layout, d: Disk): (r: Disk)
    requires Readable(l, d)
    ensures |r| == |d|
  {
    RecoveryPoint(l, d, |Head(l, d)| + 1)
  }

  /** Disk at the moment a commit has written the log blocks and the header. */
  ghost function Logged(l: Layout, d: Disk, lh: seq<int>, data: seq<Block>): (c: Disk)
    requires Formatted(l, d) && Loggable(l, d, lh) && |data| == |lh|
    ensures Formatted(l, c) && |c| == |d| && Loggable(l, c, lh)
  {
    WriteHead(l, WriteLog(l, d, data, |lh|), lh)
  }

  /** Disk after `k` writes of a commit: the log blocks, the header, the installs, the cleared header. */
  ghost function CommitPoint(l: Layout, d: Disk, lh: seq<int>, data: seq<Block>, k: nat): (p: Disk)
    requires Formatted(l, d) && Loggable(l, d, lh) && |data| == |lh| && k <= 2 * |lh| + 2
    ensures |p| == |d|
  {
    if k <= |lh| then WriteLog(l, d, data, k)
    else InstallPoint(l, Logged(l, d, lh, data), lh, k - |lh| - 1)
  }

  /** No block write of a commit damages the header block's size. */
  lemma CommitKeepsFormat(l: Layout, d: Disk, lh: seq<int>, data: seq<Block>, k: nat)
    requires Formatted(l, d) && Loggable(l, d, lh) && |data| == |lh| && k <= 2 * |lh| + 2
    ensures Formatted(l, CommitPoint(l, d, lh, data, k))
  {
    assert InLog(l, l.start);
  }

  // ---- What the disk means ----

  /** `d` and `e` agree on every block outside the log area. */
  ghost predicate SameHome(l: Layout, d: Disk, e: Disk) {
    |d| == |e| && forall b :: 0 <= b < |d| && !InLog(l, b) ==> d[b] == e[b]
  }

  /** Outside the log area `e` is `d` with every logged home block replaced by its new content. */
  ghost predicate Updated(l: Layout, d: Disk, lh: seq<int>, data: seq<Block>, e: Disk)
    requires Transaction(l, d, lh) && |data| == |lh|
  {
    && |d| == |e|
    && (forall i :: 0 <= i < |lh| ==> e[lh[i]] == data[i])
    && (forall b :: 0 <= b < |d| && !InLog(l, b) && b !in lh ==> e[b] == d[b])
  }

  // ---- Recovery ----

  /** A recovered disk has an empty log and every logged block is in its home place. */
  lemma RecoverInstalls(l: Layout, d: Disk)
    requires Readable(l, d)
    ensures Readable(l, Recover(l, d)) && Head(l, Recover(l, d)) == []
    ensures var lh := Head(l, d);
            && (forall i :: 0 <= i < |lh| ==> Recover(l, d)[lh[i]] == d[l.start + 1 + i])
            && (forall b :: 0 <= b < |d| && !InLog(l, b) && b !in lh ==> Recover(l, d)[b] == d[b])
  {
    var lh := Head(l, d);
    assert l.start !in lh;
  }

  /** Reinstalling over a partly installed disk gives the fully installed disk. */
  lemma InstallAgain(l: Layout, d: Disk, lh: seq<int>, j: nat)
    requires Formatted(l, d) && Transaction(l, d, lh) && j <= |lh|
    ensures Formatted(l, Install(l, d, lh, j)) && Transaction(l, Install(l, d, lh, j), lh)
    ensures Install(l, Install(l, d, lh, j), lh, |lh|) == Install(l, d, lh, |lh|)
  {
    var e := Install(l, d, lh, j);
    assert forall b | InLog(l, b) :: b !in lh;
    var x, y := Install(l, e, lh, |lh|), Install(l, d, lh, |lh|);
    forall b | 0 <= b < |d| ensures x[b] == y[b] {
      if b in lh {
        var i :| 0 <= i < |lh| && lh[i] == b;
        assert InLog(l, l.start + 1 + i);
      }
    }
  }

  /** Recovery stopped between two installs starts again from the same log. */
  lemma RestartInstalls(l: Layout, d: Disk, k: nat)
    requires Readable(l, d) && k <= |Head(l, d)|
    ensures var p := Install(l, d, Head(l, d), k);
            Readable(l, p) && Head(l, p) == Head(l, d) && Recover(l, p) == Recover(l, d)
  {
    hide Install;
    var lh := Head(l, d);
    assert l.start !in lh;
    InstallAgain(l, d, lh, k);
  }

  /** Recovery stopped after any number of writes and started again ends in the same disk. */
  lemma RecoveryRestarts(l: Layout, d: Disk, k: nat)
    requires Readable(l, d) && k <= |Head(l, d)| + 1
    ensures Readable(l, RecoveryPoint(l, d, k))
    ensures Recover(l, RecoveryPoint(l, d, k)) == Recover(l, d)
  {
    hide Install;
    if k <= |Head(l, d)| {
      RestartInstalls(l, d, k);
    } else {
      RecoverInstalls(l, d);
      var r := Recover(l, d);
      assert PutHead(r[l.start], []) == r[l.start];
    }
  }

  /** `points` are the numbers of writes done by successive recoveries, each cut off by a crash. */
  ghost predicate CrashedRecoveries(l: Layout, d: Disk, points: seq<nat>, e: Disk)
    decreases |points|
  {
    Readable(l, d) &&
    if points == [] then d == e
    else points[0] <= |Head(l, d)| + 1 && CrashedRecoveries(l, RecoveryPoint(l, d, points[0]), points[1..], e)
  }

  /** Any number of crashes inside recovery leaves a disk that still recovers to the same disk. */
  lemma {:induction false} RecoveryIsIdempotent(l: Layout, d: Disk, points: seq<nat>, e: Disk)
    requires CrashedRecoveries(l, d, points, e)
    ensures Readable(l, e) && Recover(l, e) == Recover(l, d)
    decreases |points|
  {
    if points != [] {
      RecoveryRestarts(l, d, points[0]);
      RecoveryIsIdempotent(l, RecoveryPoint(l, d, points[0]), points[1..], e);
    }
  }

  // ---- Commit ----

  lemma CommitPointBeforeHeader(l: Layout, d: Disk, lh: seq<int>, data: seq<Block>, k: nat)
    requires Readable(l, d) && Head(l, d) == [] && Transaction(l, d, lh) && |data| == |lh|
    requires k <= |lh|
    ensures var p := CommitPoint(l, d, lh, data, k); Readable(l, p) && SameHome(l, d, Recover(l, p))
  {
    var p := CommitPoint(l, d, lh, data, k);
    assert p[l.start] == d[l.start];
    assert Head(l, p) == [];
    RecoverInstalls(l, p);
  }

  /** Writing a transaction to the header makes it the transaction read back. */
  lemma HeadRoundTrip(l: Layout, d: Disk, lh: seq<int>)
    requires Formatted(l, d) && Transaction(l, d, lh)
    ensures Readable(l, WriteHead(l, d, lh)) && Head(l, WriteHead(l, d, lh)) == lh
  {
    var b := PutHead(d[l.start], lh);
    assert b[0] == |lh| && b[1..1 + |lh|] == lh;
  }

  /** Once the header is written, the log on disk is the whole transaction and the home blocks are
      still the old ones. */
  lemma TransactionLogged(l: Layout, d: Disk, lh: seq<int>, data: seq<Block>, c: Disk)
    requires Formatted(l, d) && Transaction(l, d, lh) && |data| == |lh|
    requires c == Logged(l, d, lh, data)
    ensures Readable(l, c) && Head(l, c) == lh && SameHome(l, d, c)
    ensures forall i :: 0 <= i < |lh| ==> c[l.start + 1 + i] == data[i]
  {
    var w := WriteLog(l, d, data, |lh|);
    assert w[l.start] == d[l.start];
    HeadRoundTrip(l, w, lh);
    assert SameHome(l, d, w);
    forall i | 0 <= i < |lh| ensures c[l.start + 1 + i] == data[i] {
      assert w[l.start + 1 + i] == data[i];
    }
  }

  lemma LoggedMeansUpdated(l: Layout, d: Disk, lh: seq<int>, data: seq<Block>, c: Disk)
    requires Transaction(l, d, lh) && |data| == |lh|
    requires Readable(l, c) && Head(l, c) == lh && SameHome(l, d, c)
    requires forall i :: 0 <= i < |lh| ==> c[l.start + 1 + i] == data[i]
    ensures Updated(l, d, lh, data, Recover(l, c))
  {
    RecoverInstalls(l, c);
  }

  lemma CommitPointAfterHeader(l: Layout, d: Disk, lh: seq<int>, data: seq<Block>, k: nat)
    requires Formatted(l, d) && Transaction(l, d, lh) && |data| == |lh|
    requires |lh| < k <= 2 * |lh| + 2
    ensures var p := CommitPoint(l, d, lh, data, k); Readable(l, p) && Updated(l, d, lh, data, Recover(l, p))
  {
    hide Logged, WriteLog, Install, Head;
    var c := Logged(l, d, lh, data);
    TransactionLogged(l, d, lh, data, c);
    assert CommitPoint(l, d, lh, data, k) == RecoveryPoint(l, c, k - |lh| - 1);
    RecoveryRestarts(l, c, k - |lh| - 1);
    LoggedMeansUpdated(l, d, lh, data, c);
  }

  /** Every crash point of a commit recovers to the old state or to the new one: the old one up to
      the header write, the new one from then on. */
  lemma CommitIsAtomic(l: Layout, d: Disk, lh: seq<int>, data: seq<Block>, k: nat)
    requires Readable(l, d) && Head(l, d) == [] && Transaction(l, d, lh) && |data| == |lh|
    requires k <= 2 * |lh| + 2
    ensures var p := CommitPoint(l, d, lh, data, k);
            && Readable(l, p)
            && (k <= |lh| ==> SameHome(l, d, Recover(l, p)))
            && (|lh| < k ==> Updated(l, d, lh, data, Recover(l, p)))
  {
    if k <= |lh| {
      CommitPointBeforeHeader(l, d, lh, data, k);
    } else {
      CommitPointAfterHeader(l, d, lh, data, k);
    }
  }

  /** All or nothing: crash a commit anywhere, crash the recoveries that follow any number of times,
      and the recovery that completes leaves the home blocks all old or all new. */
  lemma CrashSafety(l: Layout, d: Disk, lh: seq<int>, data: seq<Block>, k: nat, points: seq<nat>, e: Disk)
    requires Readable(l, d) && Head(l, d) == [] && Transaction(l, d, lh) && |data| == |lh|
    requires k <= 2 * |lh| + 2
    requires CrashedRecoveries(l, CommitPoint(l, d, lh, data, k), points, e)
    ensures Readable(l, e)
    ensures k <= |lh| ==> SameHome(l, d, Recover(l, e))
    ensures |lh| < k ==> Updated(l, d, lh, data, Recover(l, e))
  {
    CommitIsAtomic(l, d, lh, data, k);
    RecoveryIsIdempotent(l, CommitPoint(l, d, lh, data, k), points, e);
  }

  /** A commit that is not interrupted leaves the new home blocks and an empty log. */
  lemma CommitCompletes(l: Layout, d: Disk, lh: seq<int>, data: seq<Block>)
    requires Readable(l, d) && Transaction(l, d, lh) && |data| == |lh|
    ensures var p := CommitPoint(l, d, lh, data, 2 * |lh| + 2);
            && Readable(l, p) && Head(l, p) == [] && Updated(l, d, lh, data, p)
  {
    var c := Logged(l, d, lh, data);
    TransactionLogged(l, d, lh, data, c);
    LoggedMeansUpdated(l, d, lh, data, c);
    RecoverInstalls(l, c);
  }
}
