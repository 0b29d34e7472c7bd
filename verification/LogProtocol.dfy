/** Group commit by any number of processes, as a transition system.

    Every step is one section under `log.lock`, log_write's test of the log's size, which it makes
    before it takes that lock, one block write of `commit`, or a crash followed by recovery.  The
    history of the run is kept as a sequence of events, so that what is on disk can be compared with
    the operations it should reflect. */
module LogProtocol {
  import opened Params
  import opened LogDisk

  type Pid = nat

  datatype Event = Began(p: Pid) | Wrote(p: Pid, b: int, data: Block) | Ended(p: Pid)

  /** `Committing(base, k)`: `commit` started on disk `base` and has done `k` block writes. */
  datatype Phase = Idle | Committing(base: Disk, k: nat)

  datatype State = State(
    disk: Disk,
    lh: seq<int>,               // logged block numbers, in memory
    cache: map<int, Block>,     // contents of the pinned buffers
    open: map<Pid, set<int>>,   // operations in progress, with the blocks each has logged
    passed: map<Pid, int>,      // processes inside log_write, past its test, with the block
    phase: Phase,
    asleep: set<Pid>,           // processes asleep in begin_op
    events: seq<Event>,
    durable: nat                // number of events that the disk would recover to
  )

  datatype Step =
    | Begin(p: Pid)
    | BeginSleep(p: Pid)
    | Check(p: Pid, b: int)
    | Write(p: Pid, data: Block)
    | End(p: Pid)
    | CommitWrite
    | CommitDone
    | Crash

  /** begin_op may reserve space for one more operation. */
  predicate HasRoom(n: nat, outstanding: nat) {
    n + (outstanding + 1) * MAXOPBLOCKS <= LOGSIZE
  }

  /** log_write panics, before it looks for an earlier entry of the block. */
  predicate TooBig(l: Layout, n: nat) {
    n >= LOGSIZE || n >= l.size - 1
  }

  /** Absorption: a block already logged keeps its slot. */
  function Append(lh: seq<int>, b: int): seq<int> {
    if b in lh then lh else lh + [b]
  }

  /** Number of block writes `commit` makes for a transaction of `n` blocks. */
  function CommitWrites(n: nat): nat {
    if n == 0 then 0 else 2 * n + 2
  }

  ghost function Pinned(s: State): seq<Block>
    requires forall i :: 0 <= i < |s.lh| ==> s.lh[i] in s.cache
  {
    seq(|s.lh|, i requires 0 <= i < |s.lh| => s.cache[s.lh[i]])
  }

  /** A write that keeps its operation within the budget of MAXOPBLOCKS distinct blocks. */
  ghost predicate InBudget(l: Layout, s: State, p: Pid, b: int) {
    && p in s.open
    && 0 <= b < |s.disk| && !InLog(l, b)
    && |s.open[p] + {b}| <= MAXOPBLOCKS
  }

  ghost predicate Enabled(l: Layout, s: State, step: Step) {
    match step
    case Begin(p) => p !in s.open && p !in s.asleep && s.phase.Idle? && HasRoom(|s.lh|, |s.open|)
    case BeginSleep(p) => p !in s.open && p !in s.asleep && !(s.phase.Idle? && HasRoom(|s.lh|, |s.open|))
    case Check(p, b) => CanCheck(l, s, p, b) && !TooBig(l, |s.lh|)
    case Write(p, data) => p in s.passed && p in s.open
    case End(p) => p in s.open && p !in s.passed
    case CommitWrite => s.phase.Committing? && s.phase.k < CommitWrites(|s.lh|) && CanCommit(l, s)
    case CommitDone => s.phase.Committing? && s.phase.k == CommitWrites(|s.lh|)
    case Crash => Readable(l, s.disk)
  }

  /** A process calls log_write on a buffer that it has locked. */
  ghost predicate CanCheck(l: Layout, s: State, p: Pid, b: int) {
    && p !in s.passed && InBudget(l, s, p, b)
    && forall q :: q in s.passed ==> s.passed[q] != b
  }

  ghost predicate CanCommit(l: Layout, s: State)
    requires s.phase.Committing?
  {
    && Formatted(l, s.phase.base) && Loggable(l, s.phase.base, s.lh)
    && forall i :: 0 <= i < |s.lh| ==> s.lh[i] in s.cache
  }

  ghost function Apply(l: Layout, s: State, step: Step): State
    requires Enabled(l, s, step)
  {
    match step
    case Begin(p) => s.(open := s.open[p := {}], events := s.events + [Began(p)])
    case BeginSleep(p) => s.(asleep := s.asleep + {p})
    case Check(p, b) => s.(passed := s.passed[p := b])
    case Write(p, data) =>
      var b := s.passed[p];
      s.(lh := Append(s.lh, b), cache := s.cache[b := data], open := s.open[p := s.open[p] + {b}],
         passed := s.passed - {p}, events := s.events + [Wrote(p, b, data)])
    case End(p) =>
      var e := s.(open := s.open - {p}, events := s.events + [Ended(p)]);
      if e.open == map[] then e.(phase := Committing(s.disk, 0)) else e.(asleep := {})
    case CommitWrite =>
      var k := s.phase.k + 1;
      s.(disk := CommitPoint(l, s.phase.base, s.lh, Pinned(s), k), phase := s.phase.(k := k),
         durable := if k == |s.lh| + 1 then |s.events| else s.durable)
    case CommitDone => s.(phase := Idle, lh := [], cache := map[], asleep := {}, durable := |s.events|)
    case Crash =>
      State(Recover(l, s.disk), [], map[], map[], map[], Idle, {},
            if s.durable <= |s.events| then s.events[..s.durable] else s.events, s.durable)
  }

  /** A disk with an empty log and room for a full header's blocks after it. */
  ghost predicate Initial(l: Layout, d0: Disk, s: State) {
    && Readable(l, d0) && Head(l, d0) == [] && l.start + LOGSIZE < |d0|
    && s == State(d0, [], map[], map[], map[], Idle, {}, [], 0)
  }

  /** A finite run: each step together with the state it is taken in. */
  datatype Run = Start | Then(before: Run, r: State, step: Step)

  /** `run` leads from the initial state to `s`. */
  ghost predicate Reaches(l: Layout, d0: Disk, run: Run, s: State) {
    match run
    case Start => Initial(l, d0, s)
    case Then(before, r, step) => Reaches(l, d0, before, r) && Enabled(l, r, step) && s == Apply(l, r, step)
  }

  // ---- What a history means ----

  /** The logical disk after the writes in `ev`. */
  ghost function Replay(d0: Disk, ev: seq<Event>): (r: Disk)
    ensures |r| == |d0|
  {
    if ev == [] then d0
    else
      var r := Replay(d0, ev[..|ev| - 1]);
      match ev[|ev| - 1]
      case Wrote(_, b, data) => if 0 <= b < |d0| then r[b := data] else r
      case _ => r
  }

  /** Operations begun and not ended in `ev`. */
  ghost function OpenOps(ev: seq<Event>): set<Pid> {
    if ev == [] then {}
    else
      var r := OpenOps(ev[..|ev| - 1]);
      match ev[|ev| - 1]
      case Began(p) => r + {p}
      case Ended(p) => r - {p}
      case Wrote(_, _, _) => r
  }

  /** The first `m` events end at a moment with no operation in progress. */
  ghost predicate Quiet(ev: seq<Event>, m: nat) {
    m <= |ev| && OpenOps(ev[..m]) == {}
  }

  // ---- Reserved log space ----

  /** Log blocks the operations in `open` may still add. */
  ghost function Reserved(open: map<Pid, set<int>>): int {
    if open == map[] then 0
    else
      var p :| p in open;
      MAXOPBLOCKS - |open[p]| + Reserved(open - {p})
  }

  lemma {:induction false} ReservedRemove(open: map<Pid, set<int>>, p: Pid)
    requires p in open
    ensures Reserved(open) == MAXOPBLOCKS - |open[p]| + Reserved(open - {p})
    decreases |open|
  {
    var q :| q in open && Reserved(open) == MAXOPBLOCKS - |open[q]| + Reserved(open - {q});
    if q != p {
      ReservedRemove(open - {q}, p);
      ReservedRemove(open - {p}, q);
      assert open - {q} - {p} == open - {p} - {q};
    }
  }

  lemma ReservedUpdate(open: map<Pid, set<int>>, p: Pid, w: set<int>)
    requires p in open
    ensures Reserved(open[p := w]) == Reserved(open) + |open[p]| - |w|
  {
    ReservedRemove(open, p);
    ReservedRemove(open[p := w], p);
    assert open[p := w] - {p} == open - {p};
  }

  lemma ReservedAdd(open: map<Pid, set<int>>, p: Pid)
    requires p !in open
    ensures Reserved(open[p := {}]) == Reserved(open) + MAXOPBLOCKS
  {
    ReservedRemove(open[p := {}], p);
    assert open[p := {}] - {p} == open;
  }

  lemma {:induction false} ReservedBounds(open: map<Pid, set<int>>)
    requires forall p :: p in open ==> |open[p]| <= MAXOPBLOCKS
    ensures 0 <= Reserved(open) <= |open| * MAXOPBLOCKS
    decreases |open|
  {
    if open != map[] {
      var p :| p in open && Reserved(open) == MAXOPBLOCKS - |open[p]| + Reserved(open - {p});
      ReservedBounds(open - {p});
      assert |open - {p}| == |open| - 1;
    }
  }

  // ---- The invariant of every log area ----

  /** The disk the current transaction is relative to. */
  ghost function Base(s: State): Disk {
    if s.phase.Idle? then s.disk else s.phase.base
  }

  ghost predicate SizeInv(l: Layout, d0: Disk, s: State) {
    && |s.disk| == |Base(s)| == |d0| && l.start + LOGSIZE < |d0|
    && Formatted(l, s.disk) && Formatted(l, Base(s))
  }

  /** Committing excludes operations in progress; logged blocks are distinct, outside the log, and
      exactly the pinned ones. */
  ghost predicate LogInv(l: Layout, s: State) {
    && Loggable(l, Base(s), s.lh)
    && (forall b :: b in s.cache <==> b in s.lh)
    && (s.phase.Committing? ==> s.open == map[])
    && (s.phase.Idle? && s.open == map[] ==> s.lh == [])
  }

  /** Who is inside log_write has an operation in progress and may still add the block to it. */
  ghost predicate PassedInv(l: Layout, d0: Disk, s: State) {
    forall p :: p in s.passed ==>
      && p in s.open && 0 <= s.passed[p] < |d0| && !InLog(l, s.passed[p])
      && |s.open[p] + {s.passed[p]}| <= MAXOPBLOCKS
  }

  /** Operations in progress have reserved the log space they may still need. */
  ghost predicate SpaceInv(s: State) {
    && (forall p :: p in s.open ==> |s.open[p]| <= MAXOPBLOCKS)
    && (forall p, b :: p in s.open && b in s.open[p] ==> b in s.lh)
    && |s.lh| + Reserved(s.open) <= LOGSIZE
  }

  ghost predicate HistoryInv(s: State) {
    && s.open.Keys == OpenOps(s.events) && Quiet(s.events, s.durable)
    && (s.phase.Idle? && s.open == map[] ==> s.durable == |s.events|)
  }

  /** No lost wakeup: a process sleeps in begin_op only while it would have to wait. */
  ghost predicate SleepInv(s: State) {
    s.asleep != {} ==> !(s.phase.Idle? && HasRoom(|s.lh|, |s.open|))
  }

  /** During a commit the disk is a commit point of the blocks logged. */
  ghost predicate CommitInv(l: Layout, s: State) {
    s.phase.Committing? ==>
      && s.phase.k <= CommitWrites(|s.lh|) && CanCommit(l, s)
      && s.disk == CommitPoint(l, s.phase.base, s.lh, Pinned(s), s.phase.k)
  }

  ghost predicate RunInv(l: Layout, d0: Disk, s: State) {
    && SizeInv(l, d0, s) && LogInv(l, s) && PassedInv(l, d0, s) && SpaceInv(s)
    && HistoryInv(s) && SleepInv(s) && CommitInv(l, s)
  }

  // ---- The invariant of log areas that fit ----

  /** The log area holds every transaction that operations within their budgets can make: it has a block for
      the header and LOGSIZE more, or so few that log_write always panics. */
  predicate Fits(l: Layout) { l.size > LOGSIZE || l.size == 1 }

  ghost predicate AreaInv(l: Layout, s: State) {
    |s.lh| < l.size && (l.size == 1 ==> s.passed == map[])
  }

  /** The cache over the disk is the logical disk of the whole history. */
  ghost predicate ViewInv(l: Layout, d0: Disk, s: State) {
    && |Base(s)| == |d0|
    && forall b :: 0 <= b < |d0| && !InLog(l, b) ==>
         Replay(d0, s.events)[b] == if b in s.cache then s.cache[b] else Base(s)[b]
  }

  /** The transaction starts from an empty log over a quiet prefix of the history. */
  ghost predicate BaseInv(l: Layout, d0: Disk, s: State) {
    && Readable(l, Base(s)) && Head(l, Base(s)) == [] && Readable(l, s.disk)
    && s.durable <= |s.events|
    && (s.phase.Committing? && s.phase.k > |s.lh| ==> s.durable == |s.events|)
    && (!(s.phase.Committing? && s.phase.k > |s.lh|) ==> SameHome(l, Base(s), Replay(d0, s.events[..s.durable])))
  }

  ghost predicate DiskInv(l: Layout, d0: Disk, s: State) {
    AreaInv(l, s) && ViewInv(l, d0, s) && BaseInv(l, d0, s)
  }

  ghost predicate Inv(l: Layout, d0: Disk, s: State) {
    RunInv(l, d0, s) && (Fits(l) ==> DiskInv(l, d0, s))
  }

  // ---- Steps ----

  lemma HistoryGrows(d0: Disk, ev: seq<Event>, e: Event, m: nat)
    requires m <= |ev|
    ensures (ev + [e])[..m] == ev[..m]
    ensures (ev + [e])[..|ev|] == ev
    ensures Quiet(ev, m) ==> Quiet(ev + [e], m)
    ensures !e.Wrote? ==> Replay(d0, ev + [e]) == Replay(d0, ev)
    ensures e.Wrote? && 0 <= e.b < |d0| ==> Replay(d0, ev + [e]) == Replay(d0, ev)[e.b := e.data]
  {
    assert (ev + [e])[..m] == ev[..m];
    assert (ev + [e])[..|ev|] == ev;
  }

  lemma InitialInv(l: Layout, d0: Disk, s: State)
    requires Initial(l, d0, s)
    ensures Inv(l, d0, s)
  {
    assert s.events[..0] == [];
  }

  lemma BeginSpace(s: State, p: Pid)
    requires SpaceInv(s) && p !in s.open && HasRoom(|s.lh|, |s.open|)
    ensures SpaceInv(s.(open := s.open[p := {}]))
  {
    hide Reserved;
    ReservedAdd(s.open, p);
    ReservedBounds(s.open);
  }

  lemma BeginHistory(s: State, p: Pid)
    requires HistoryInv(s) && p !in s.open
    ensures HistoryInv(s.(open := s.open[p := {}], events := s.events + [Began(p)]))
  {
    HistoryGrows([], s.events, Began(p), s.durable);
    var t := s.(open := s.open[p := {}], events := s.events + [Began(p)]);
    assert p in t.open && t.open != map[];
  }

  lemma BeginRun(l: Layout, d0: Disk, s: State, p: Pid)
    requires RunInv(l, d0, s) && Enabled(l, s, Begin(p))
    ensures RunInv(l, d0, Apply(l, s, Begin(p)))
  {
    hide Reserved, CommitPoint, Replay, Formatted, Loggable, OpenOps, Quiet;
    var t := Apply(l, s, Begin(p));
    BeginHistory(s, p);
    BeginSpace(s, p);
    assert p in t.open && t.open != map[];
  }

  lemma CheckRun(l: Layout, d0: Disk, s: State, p: Pid, b: int)
    requires RunInv(l, d0, s) && Enabled(l, s, Check(p, b))
    ensures RunInv(l, d0, Apply(l, s, Check(p, b)))
  {
    hide Reserved, CommitPoint, Formatted, Loggable, OpenOps;
    assert s.open != map[] && s.phase.Idle?;
  }

  lemma WriteLogged(l: Layout, d0: Disk, s: State, p: Pid, data: Block)
    requires RunInv(l, d0, s) && Enabled(l, s, Write(p, data))
    ensures var t := Apply(l, s, Write(p, data));
            SizeInv(l, d0, t) && LogInv(l, t) && SpaceInv(t) && SleepInv(t) && CommitInv(l, t) && s.phase.Idle?
  {
    hide Reserved, CommitPoint, Formatted, OpenOps, HistoryInv;
    var t := Apply(l, s, Write(p, data));
    WriteSpace(s, p, s.passed[p]);
    ReservedBounds(t.open);
    assert s.open != map[];
    assert t.open.Keys == s.open.Keys && p in t.open.Keys && t.open != map[];
  }

  lemma WriteRun(l: Layout, d0: Disk, s: State, p: Pid, data: Block)
    requires RunInv(l, d0, s) && Enabled(l, s, Write(p, data))
    ensures RunInv(l, d0, Apply(l, s, Write(p, data)))
  {
    hide LogInv, SpaceInv, SleepInv, CommitInv, SizeInv, OpenOps;
    var t := Apply(l, s, Write(p, data));
    WriteLogged(l, d0, s, p, data);
    HistoryGrows(d0, s.events, Wrote(p, s.passed[p], data), s.durable);
    assert t.open.Keys == s.open.Keys && p in t.open.Keys && t.open != map[];
    WroteOpen(s.events, Wrote(p, s.passed[p], data));
    assert HistoryInv(t);
  }

  lemma WroteOpen(ev: seq<Event>, e: Event)
    requires e.Wrote?
    ensures OpenOps(ev + [e]) == OpenOps(ev)
  {
    assert (ev + [e])[..|ev|] == ev;
  }

  /** A block not logged yet uses up one reserved block of its operation. */
  lemma WriteSpace(s: State, p: Pid, b: int)
    requires SpaceInv(s) && p in s.open && |s.open[p] + {b}| <= MAXOPBLOCKS
    ensures |Append(s.lh, b)| + Reserved(s.open[p := s.open[p] + {b}]) <= LOGSIZE
    ensures b !in s.lh ==> |s.lh| < LOGSIZE
  {
    hide Reserved;
    if b in s.open[p] {
      assert s.open[p] + {b} == s.open[p];
    } else {
      assert |s.open[p] + {b}| == |s.open[p]| + 1;
    }
    ReservedUpdate(s.open, p, s.open[p] + {b});
    ReservedBounds(s.open[p := s.open[p] + {b}]);
  }

  lemma EndSpace(s: State, p: Pid)
    requires SpaceInv(s) && p in s.open
    ensures SpaceInv(s.(open := s.open - {p}))
  {
    hide Reserved;
    ReservedRemove(s.open, p);
  }

  lemma EndHistory(s: State, p: Pid)
    requires HistoryInv(s) && p in s.open
    ensures var ev := s.events + [Ended(p)];
            (s.open - {p}).Keys == OpenOps(ev) && Quiet(ev, s.durable)
  {
    HistoryGrows([], s.events, Ended(p), s.durable);
  }

  /** A commit that starts has made no write yet. */
  lemma CommitStarts(l: Layout, s: State)
    requires s.phase.Committing? && s.phase.k == 0 && s.phase.base == s.disk && Formatted(l, s.disk)
    requires Loggable(l, s.disk, s.lh) && forall b :: b in s.cache <==> b in s.lh
    ensures CommitInv(l, s)
  {
    assert forall i :: 0 <= i < |s.lh| ==> s.lh[i] in s.lh;
  }

  /** What the end of an operation changes. */
  lemma EndView(l: Layout, s: State, p: Pid)
    requires Enabled(l, s, End(p))
    ensures var t := Apply(l, s, End(p));
            && t.open == s.open - {p} && t.lh == s.lh && t.cache == s.cache && t.disk == s.disk && t.passed == s.passed
            && t.events == s.events + [Ended(p)] && t.durable == s.durable
            && (if t.open == map[] then t.phase == Committing(s.disk, 0) else t.phase == s.phase && t.asleep == {})
  {
  }

  lemma EndRun(l: Layout, d0: Disk, s: State, p: Pid)
    requires RunInv(l, d0, s) && Enabled(l, s, End(p))
    ensures RunInv(l, d0, Apply(l, s, End(p)))
  {
    hide Reserved, Formatted, Loggable, CommitPoint, OpenOps, Quiet, SpaceInv, Apply, CommitInv, HasRoom;
    var t := Apply(l, s, End(p));
    EndView(l, s, p);
    assert s.open != map[] && s.phase.Idle?;
    EndHistory(s, p);
    EndSpace(s, p);
    SpaceSame(s.(open := s.open - {p}), t);
    if t.phase.Committing? {
      CommitStarts(l, t);
    } else {
      IdleCommit(l, t);
    }
  }

  lemma SpaceSame(s: State, t: State)
    requires SpaceInv(s) && t.open == s.open && t.lh == s.lh
    ensures SpaceInv(t)
  {
  }

  lemma IdleCommit(l: Layout, s: State)
    requires s.phase.Idle?
    ensures CommitInv(l, s)
  {
  }

  lemma CommitWriteRun(l: Layout, d0: Disk, s: State)
    requires RunInv(l, d0, s) && Enabled(l, s, CommitWrite)
    ensures RunInv(l, d0, Apply(l, s, CommitWrite))
  {
    hide CommitPoint, Reserved, Loggable;
    var t := Apply(l, s, CommitWrite);
    assert Pinned(t) == Pinned(s);
    CommitKeepsFormat(l, s.phase.base, s.lh, Pinned(s), t.phase.k);
    assert s.events[..|s.events|] == s.events;
    assert s.open.Keys == {};
  }

  lemma CommitDoneRun(l: Layout, d0: Disk, s: State)
    requires RunInv(l, d0, s) && Enabled(l, s, CommitDone)
    ensures RunInv(l, d0, Apply(l, s, CommitDone))
  {
    hide CommitPoint;
    assert s.events[..|s.events|] == s.events;
    assert s.open.Keys == {};
  }

  lemma CrashRun(l: Layout, d0: Disk, s: State)
    requires RunInv(l, d0, s) && Enabled(l, s, Crash)
    ensures RunInv(l, d0, Apply(l, s, Crash))
  {
    hide CommitPoint, Recover, Head, OpenOps, Loggable, CommitInv;
    RecoverInstalls(l, s.disk);
    var t := Apply(l, s, Crash);
    assert t.events[..t.durable] == t.events;
    CrashedFresh(l, t);
  }

  /** Nothing is logged and nobody has an operation. */
  lemma CrashedFresh(l: Layout, s: State)
    requires s.lh == [] && s.cache == map[] && s.open == map[] && s.phase.Idle? && Formatted(l, s.disk)
    ensures LogInv(l, s) && SpaceInv(s) && CommitInv(l, s)
  {
  }

  lemma StepRun(l: Layout, d0: Disk, s: State, step: Step)
    requires RunInv(l, d0, s) && Enabled(l, s, step)
    ensures RunInv(l, d0, Apply(l, s, step))
  {
    match step
    case Begin(p) => BeginRun(l, d0, s, p);
    case BeginSleep(p) => BeginSleepRun(l, d0, s, p);
    case Check(p, b) => CheckRun(l, d0, s, p, b);
    case Write(p, data) => WriteRun(l, d0, s, p, data);
    case End(p) => EndRun(l, d0, s, p);
    case CommitWrite => CommitWriteRun(l, d0, s);
    case CommitDone => CommitDoneRun(l, d0, s);
    case Crash => CrashRun(l, d0, s);
  }

  lemma BeginSleepRun(l: Layout, d0: Disk, s: State, p: Pid)
    requires RunInv(l, d0, s) && Enabled(l, s, BeginSleep(p))
    ensures RunInv(l, d0, Apply(l, s, BeginSleep(p)))
  {
    hide CommitPoint, Reserved, OpenOps, Loggable, Formatted;
    var t := Apply(l, s, BeginSleep(p));
    if s.phase.Committing? {
      assert Pinned(t) == Pinned(s);
    }
  }

  // ---- Steps in log areas that fit ----

  /** Steps that change neither the history's writes nor the disk. */
  lemma PlainDisk(l: Layout, d0: Disk, s: State, step: Step)
    requires RunInv(l, d0, s) && DiskInv(l, d0, s) && Fits(l) && Enabled(l, s, step)
    requires step.Begin? || step.BeginSleep? || step.Check? || step.End?
    ensures DiskInv(l, d0, Apply(l, s, step))
  {
    hide CommitPoint, Reserved, OpenOps, Head, Replay, Readable;
    match step
    case Begin(p) => HistoryGrows(d0, s.events, Began(p), s.durable);
    case End(p) => HistoryGrows(d0, s.events, Ended(p), s.durable);
    case _ =>
  }

  lemma WriteView(l: Layout, d0: Disk, s: State, p: Pid, data: Block)
    requires ViewInv(l, d0, s) && Enabled(l, s, Write(p, data)) && 0 <= s.passed[p] < |d0| && s.durable <= |s.events|
    ensures ViewInv(l, d0, Apply(l, s, Write(p, data)))
  {
    hide Replay;
    HistoryGrows(d0, s.events, Wrote(p, s.passed[p], data), s.durable);
  }

  lemma WriteDisk(l: Layout, d0: Disk, s: State, p: Pid, data: Block)
    requires RunInv(l, d0, s) && DiskInv(l, d0, s) && Fits(l) && Enabled(l, s, Write(p, data))
    ensures DiskInv(l, d0, Apply(l, s, Write(p, data)))
  {
    hide CommitPoint, Reserved, OpenOps, Head, Replay, Readable, ViewInv, Loggable, SameHome;
    WriteLogged(l, d0, s, p, data);
    WriteView(l, d0, s, p, data);
    HistoryGrows(d0, s.events, Wrote(p, s.passed[p], data), s.durable);
    assert p in s.passed;
    var t := Apply(l, s, Write(p, data));
    LoggedSize(l, t);
  }

  lemma LoggedSize(l: Layout, s: State)
    requires LogInv(l, s)
    ensures |s.lh| <= LOGSIZE
  {
  }

  lemma CommitWriteDisk(l: Layout, d0: Disk, s: State)
    requires RunInv(l, d0, s) && DiskInv(l, d0, s) && Enabled(l, s, CommitWrite)
    ensures DiskInv(l, d0, Apply(l, s, CommitWrite))
  {
    hide CommitPoint, Recover, Head, Updated, SameHome, Replay;
    var t := Apply(l, s, CommitWrite);
    CommitIsAtomic(l, s.phase.base, s.lh, Pinned(s), t.phase.k);
  }

  /** A disk with the transaction applied is the logical disk of the whole history. */
  lemma UpdatedIsCurrent(l: Layout, d0: Disk, s: State, e: Disk)
    requires ViewInv(l, d0, s) && Transaction(l, Base(s), s.lh)
    requires forall b :: b in s.cache <==> b in s.lh
    requires Updated(l, Base(s), s.lh, Pinned(s), e)
    ensures SameHome(l, e, Replay(d0, s.events))
  {
    forall b | 0 <= b < |d0| && !InLog(l, b) ensures e[b] == Replay(d0, s.events)[b] {
      if b in s.lh {
        var i :| 0 <= i < |s.lh| && s.lh[i] == b;
        assert e[s.lh[i]] == Pinned(s)[i];
      }
    }
  }

  lemma NothingToCommit(l: Layout, d: Disk, lh: seq<int>, data: seq<Block>)
    requires Formatted(l, d) && Loggable(l, d, lh) && lh == [] && data == []
    ensures CommitPoint(l, d, lh, data, 0) == d
  {
  }

  /** When its last write is done, a commit has made the whole history durable. */
  lemma CommitFinished(l: Layout, d0: Disk, s: State)
    requires RunInv(l, d0, s) && DiskInv(l, d0, s) && Enabled(l, s, CommitDone)
    ensures Head(l, s.disk) == [] && SameHome(l, s.disk, Replay(d0, s.events))
  {
    hide Replay, Reserved, OpenOps, CommitPoint, Head, Updated;
    if |s.lh| > 0 {
      CommitCompletes(l, s.phase.base, s.lh, Pinned(s));
      UpdatedIsCurrent(l, d0, s, s.disk);
    } else {
      NothingToCommit(l, s.phase.base, s.lh, Pinned(s));
    }
  }

  lemma CommitDoneDisk(l: Layout, d0: Disk, s: State)
    requires RunInv(l, d0, s) && DiskInv(l, d0, s) && Enabled(l, s, CommitDone)
    ensures DiskInv(l, d0, Apply(l, s, CommitDone))
  {
    hide Replay, Reserved, OpenOps, CommitPoint, Head;
    CommitFinished(l, d0, s);
    assert s.events[..|s.events|] == s.events;
  }

  /** What is on disk always recovers to the logical state at a quiet moment of the history. */
  lemma RecoveredIsQuiet(l: Layout, d0: Disk, s: State)
    requires RunInv(l, d0, s) && DiskInv(l, d0, s)
    ensures Quiet(s.events, s.durable)
    ensures Readable(l, s.disk) && SameHome(l, Recover(l, s.disk), Replay(d0, s.events[..s.durable]))
  {
    hide CommitPoint, Recover, Replay, Reserved;
    if s.phase.Idle? {
      RecoverInstalls(l, s.disk);
    } else {
      CommitIsAtomic(l, s.phase.base, s.lh, Pinned(s), s.phase.k);
      if s.phase.k > |s.lh| {
        UpdatedIsCurrent(l, d0, s, Recover(l, s.disk));
        assert s.events[..s.durable] == s.events;
      }
    }
  }

  lemma CrashDisk(l: Layout, d0: Disk, s: State)
    requires RunInv(l, d0, s) && DiskInv(l, d0, s) && Fits(l) && Enabled(l, s, Crash)
    ensures DiskInv(l, d0, Apply(l, s, Crash))
  {
    hide CommitPoint, Recover, Replay, Reserved, OpenOps, Head;
    RecoveredIsQuiet(l, d0, s);
    RecoverInstalls(l, s.disk);
    var t := Apply(l, s, Crash);
    assert t.events[..t.durable] == t.events;
  }

  lemma StepInv(l: Layout, d0: Disk, s: State, step: Step)
    requires Inv(l, d0, s) && Enabled(l, s, step)
    ensures Inv(l, d0, Apply(l, s, step))
  {
    hide RunInv, DiskInv, Apply;
    StepRun(l, d0, s, step);
    if Fits(l) {
      match step
      case Write(p, data) => WriteDisk(l, d0, s, p, data);
      case CommitWrite => CommitWriteDisk(l, d0, s);
      case CommitDone => CommitDoneDisk(l, d0, s);
      case Crash => CrashDisk(l, d0, s);
      case _ => PlainDisk(l, d0, s, step);
    }
  }

  // ---- Every run ----

  lemma {:induction false} ReachableInv(l: Layout, d0: Disk, run: Run, s: State)
    requires Reaches(l, d0, run, s)
    ensures Inv(l, d0, s)
  {
    match run
    case Start =>
      InitialInv(l, d0, s);
    case Then(before, r, step) =>
      ReachableInv(l, d0, before, r);
      StepInv(l, d0, r, step);
  }

  /** In every interleaving over every log area: committing excludes open operations, logged blocks are distinct and
      fit the header, and what counts as durable ends at a moment with no open operation. */
  lemma CommitExcludes(l: Layout, d0: Disk, run: Run, s: State)
    requires Reaches(l, d0, run, s)
    ensures s.phase.Committing? ==> |s.open| == 0 && |s.passed| == 0
    ensures Distinct(s.lh) && |s.lh| <= LOGSIZE && Quiet(s.events, s.durable)
    ensures s.phase.Idle? && s.open == map[] ==> s.durable == |s.events|
  {
    ReachableInv(l, d0, run, s);
    if s.phase.Committing? {
      assert forall p :: p !in s.passed;
      assert s.passed == map[];
    }
  }

  /** With crashes anywhere, the disk recovers to the logical state at a moment with no open operation, if the log area
      fits. */
  lemma GroupCommit(l: Layout, d0: Disk, run: Run, s: State)
    requires Reaches(l, d0, run, s) && Fits(l)
    ensures Readable(l, s.disk) && Quiet(s.events, s.durable)
    ensures SameHome(l, Recover(l, s.disk), Replay(d0, s.events[..s.durable]))
  {
    ReachableInv(l, d0, run, s);
    RecoveredIsQuiet(l, d0, s);
  }

  /** What has become durable stays durable, also over a crash. */
  lemma DurableGrows(l: Layout, d0: Disk, s: State, step: Step)
    requires Inv(l, d0, s) && Enabled(l, s, step)
    ensures var t := Apply(l, s, step);
            && s.durable <= |s.events| && s.durable <= t.durable <= |t.events|
            && t.events[..s.durable] == s.events[..s.durable]
  {
    hide CommitPoint, Recover, Replay, Reserved;
    assert s.durable <= |s.events|;
    var t := Apply(l, s, step);
    assert forall i :: 0 <= i < s.durable ==> t.events[i] == s.events[i];
  }

  lemma {:induction false} StaysOpen(ev: seq<Event>, i: nat, m: nat)
    requires i < m <= |ev| && ev[i].Began?
    requires forall j :: i < j < m ==> ev[j] != Ended(ev[i].p)
    ensures ev[i].p in OpenOps(ev[..m])
    decreases m
  {
    assert ev[..m][..m - 1] == ev[..m - 1];
    if i < m - 1 {
      StaysOpen(ev, i, m - 1);
    }
  }

  /** Each operation is all or nothing: a quiet prefix of the history holds every write of an operation
      or none.  The operation begins at `i`, writes at `w`, and does not end in between. */
  lemma AllOrNothing(ev: seq<Event>, m: nat, i: nat, w: nat)
    requires Quiet(ev, m)
    requires i < w < |ev| && ev[i].Began? && ev[w].Wrote? && ev[w].p == ev[i].p
    requires forall j :: i < j < w ==> ev[j] != Ended(ev[i].p)
    ensures i < m <==> w < m
  {
    if i < m <= w {
      StaysOpen(ev, i, m);
    }
  }

  /** A process asleep in begin_op has to wait, and an operation or a commit in progress will wake it. */
  lemma SleeperWillBeWoken(l: Layout, d0: Disk, run: Run, s: State)
    requires Reaches(l, d0, run, s) && s.asleep != {}
    ensures s.phase.Committing? || (s.open != map[] && !HasRoom(|s.lh|, |s.open|))
  {
    ReachableInv(l, d0, run, s);
  }

  // ---- Log space ----

  /** Reservation: an operation within its budget finds room in the header for a block that is not logged yet. */
  lemma ReservationHolds(l: Layout, d0: Disk, run: Run, s: State, p: Pid, b: int)
    requires Reaches(l, d0, run, s) && InBudget(l, s, p, b) && b !in s.lh
    ensures |s.lh| < LOGSIZE
  {
    ReachableInv(l, d0, run, s);
    WriteSpace(s, p, b);
  }

  /** No budgeted first write of a block, in any run, meets the "too big a transaction" panic. */
  ghost predicate FirstWritesFit(l: Layout, d0: Disk) {
    forall run, s, p, b :: Reaches(l, d0, run, s) && CanCheck(l, s, p, b) && b !in s.lh ==> !TooBig(l, |s.lh|)
  }

  /** Of three operations that fill the log, the one that writes block number `m`: the second and the third keep a
      block each for the end. */
  function Filler(m: nat): nat { if m < 10 then 0 else if m < 19 || m == 28 then 1 else 2 }

  /** Number of blocks among the first `m` that operation `j` writes. */
  function Share(m: nat, j: nat): nat {
    if m == 0 then 0 else Share(m - 1, j) + if Filler(m - 1) == j then 1 else 0
  }

  /** No write of the history is to the block after the log area. */
  ghost predicate Spares(l: Layout, ev: seq<Event>) {
    forall k :: 0 <= k < |ev| && ev[k].Wrote? ==> ev[k].b != l.start + l.size
  }

  /** Three operations in progress have logged `m` blocks beyond the block after the log area. */
  ghost predicate Filled(l: Layout, d0: Disk, m: nat, s: State) {
    && s.phase.Idle? && s.disk == d0 && s.durable == 0 && s.passed == map[] && Spares(l, s.events)
    && |s.lh| == m
    && (forall i :: 0 <= i < m ==> s.lh[i] == NextBlock(l, i))
    && (forall b :: b in s.cache <==> b in s.lh)
    && s.open.Keys == {0, 1, 2}
    && (m > 0 ==> s.lh[0] in s.open[0])
    && (forall j :: j in s.open ==> |s.open[j]| == Share(m, j))
    && (forall j, b :: j in s.open && b in s.open[j] ==> b in s.lh)
  }

  /** A disk with an empty log and room for the blocks of a full header after the log area. */
  ghost predicate Roomy(l: Layout, d0: Disk) {
    Readable(l, d0) && Head(l, d0) == [] && l.start + l.size + LOGSIZE < |d0|
  }

  lemma ThreeOperations(l: Layout, d0: Disk) returns (run: Run, s: State)
    requires Roomy(l, d0)
    ensures Reaches(l, d0, run, s) && Filled(l, d0, 0, s)
  {
    assert l.size >= 1;
    hide Readable, Head;
    run, s := Start, State(d0, [], map[], map[], map[], Idle, {}, [], 0);
    assert Reaches(l, d0, run, s);
    run, s := Then(run, s, Begin(0)), Apply(l, s, Begin(0));
    assert Reaches(l, d0, run, s);
    run, s := Then(run, s, Begin(1)), Apply(l, s, Begin(1));
    assert Reaches(l, d0, run, s);
    run, s := Then(run, s, Begin(2)), Apply(l, s, Begin(2));
  }

  lemma FillShare(m: nat)
    requires m <= LOGSIZE
    ensures Share(m, 0) == (if m < 10 then m else 10)
    ensures Share(m, 1) == (if m < 10 then 0 else if m < 19 then m - 10 else if m < 29 then 9 else 10)
    ensures Share(m, 2) == (if m < 19 then 0 else if m < 28 then m - 19 else if m < 30 then 9 else 10)
  {
    if m > 0 {
      FillShare(m - 1);
    }
  }

  /** The number of the next block to fill the log with. */
  function NextBlock(l: Layout, m: nat): int { l.start + l.size + 1 + m }

  lemma FillCheck(l: Layout, d0: Disk, m: nat, r: State, j: nat)
    requires Filled(l, d0, m, r) && Roomy(l, d0) && m < LOGSIZE && j in {0, 1, 2} && Share(m, j) < MAXOPBLOCKS
    ensures CanCheck(l, r, j, NextBlock(l, m)) && NextBlock(l, m) !in r.lh
  {
    hide Readable, Head, Share;
    assert j in r.open.Keys;
  }

  /** The state after operation `j` has checked and logged block `b`. */
  ghost function AfterWrite(r: State, j: Pid, b: int, data: Block): State
    requires j in r.open
  {
    r.(lh := Append(r.lh, b), cache := r.cache[b := data], open := r.open[j := r.open[j] + {b}],
       passed := map[], events := r.events + [Wrote(j, b, data)])
  }

  lemma CheckThenWrite(l: Layout, r: State, j: Pid, b: int, data: Block)
    requires CanCheck(l, r, j, b) && !TooBig(l, |r.lh|) && r.passed == map[]
    ensures Enabled(l, r, Check(j, b)) && Enabled(l, Apply(l, r, Check(j, b)), Write(j, data))
    ensures Apply(l, Apply(l, r, Check(j, b)), Write(j, data)) == AfterWrite(r, j, b, data)
  {
    var c := Apply(l, r, Check(j, b));
    assert c.passed - {j} == map[];
  }

  /** One more block, logged. */
  lemma FillOne(l: Layout, d0: Disk, m: nat, r: State)
    requires Filled(l, d0, m, r) && m < LOGSIZE && NextBlock(l, m) !in r.lh && Filler(m) in r.open
    ensures Filled(l, d0, m + 1, AfterWrite(r, Filler(m), NextBlock(l, m), []))
  {
    hide Share;
    var j, b := Filler(m), NextBlock(l, m);
    FillShare(m);
    FillShare(m + 1);
    var s := AfterWrite(r, j, b, []);
    assert s.lh == r.lh + [b];
    assert s.open.Keys == r.open.Keys;
    assert b !in r.open[j];
  }

  lemma {:induction false} FillLog(l: Layout, d0: Disk, m: nat) returns (run: Run, s: State)
    requires Roomy(l, d0) && m <= LOGSIZE && m < l.size
    ensures Reaches(l, d0, run, s) && Filled(l, d0, m, s)
  {
    hide Enabled, Apply, Initial, Readable, Head, Share, AfterWrite;
    if m == 0 {
      run, s := ThreeOperations(l, d0);
    } else {
      var before, r := FillLog(l, d0, m - 1);
      var j := Filler(m - 1);
      FillShare(m - 1);
      assert j in r.open.Keys;
      FillCheck(l, d0, m - 1, r, j);
      FillOne(l, d0, m - 1, r);
      CheckThenWrite(l, r, j, NextBlock(l, m - 1), []);
      var check := Check(j, NextBlock(l, m - 1));
      var c := Apply(l, r, check);
      run, s := Then(Then(before, r, check), c, Write(j, [])), Apply(l, c, Write(j, []));
    }
  }

  /** With a log area of at most LOGSIZE blocks, three operations within their budgets reach the panic
      by a block that is not logged yet.  mkfs makes the area exactly LOGSIZE blocks. */
  lemma FirstWriteCanPanic(l: Layout, d0: Disk) returns (run: Run, s: State, p: Pid, b: int)
    requires Roomy(l, d0) && l.size <= LOGSIZE
    ensures Reaches(l, d0, run, s) && CanCheck(l, s, p, b) && b !in s.lh && TooBig(l, |s.lh|)
  {
    hide Reaches, Head, Share;
    var m := l.size - 1;
    run, s := FillLog(l, d0, m);
    FillShare(m);
    p, b := 2, NextBlock(l, m);
    FillCheck(l, d0, m, s, p);
  }

  /** The guard of log_write also compares with the log's own size, so the reservation is enough
      exactly when the log area has a block for the header besides its LOGSIZE data blocks. */
  lemma FirstWritesFitExactly(l: Layout, d0: Disk)
    requires Roomy(l, d0)
    ensures FirstWritesFit(l, d0) <==> l.size > LOGSIZE
  {
    if l.size > LOGSIZE {
      forall run, s, p, b | Reaches(l, d0, run, s) && CanCheck(l, s, p, b) && b !in s.lh
        ensures !TooBig(l, |s.lh|)
      {
        ReservationHolds(l, d0, run, s, p, b);
      }
    } else {
      var run, s, p, b := FirstWriteCanPanic(l, d0);
    }
  }

  /** The guard runs before absorption: a full log turns away even a block that is logged already. */
  lemma AbsorbedWriteCanPanic(l: Layout, d0: Disk) returns (run: Run, s: State, p: Pid, b: int)
    requires Roomy(l, d0) && LOGSIZE < l.size
    ensures Reaches(l, d0, run, s) && CanCheck(l, s, p, b) && b in s.lh && TooBig(l, |s.lh|)
  {
    hide Reaches, Readable, Head, Share;
    run, s := FillLog(l, d0, LOGSIZE);
    FillShare(LOGSIZE);
    p, b := 0, s.lh[0];
    assert s.open[0] + {b} == s.open[0];
  }

  // ---- Two writers past the guard ----

  /** A block of the same size with other contents. */
  function Other(x: Block): (y: Block)
    ensures y != x
  {
    if x == [] then [0] else x[0 := x[0] + 1]
  }

  /** What the last block logged holds: not what is in the block after the log area. */
  ghost function Stray(l: Layout, d0: Disk): Block
    requires l.start + l.size < |d0|
  {
    Other(d0[l.start + l.size])
  }

  /** As many blocks are logged as the area has, with the header. */
  ghost predicate Overfull(l: Layout, d0: Disk, s: State) {
    && l.start + l.size < |d0| && s.disk == d0 && s.durable == 0 && s.passed == map[] && Spares(l, s.events)
    && |s.lh| == l.size > 0 && s.lh[l.size - 1] in s.cache && s.cache[s.lh[l.size - 1]] == Stray(l, d0)
  }

  /** Two operations have tested the log's size, with one block left. */
  ghost predicate BothPassed(l: Layout, d0: Disk, s: State) {
    && l.size >= 2 && l.start + l.size < |d0|
    && s.phase.Idle? && s.disk == d0 && s.durable == 0 && s.open.Keys == {0, 1, 2} && Spares(l, s.events)
    && |s.lh| == l.size - 2 && NextBlock(l, l.size - 2) !in s.lh && NextBlock(l, l.size - 1) !in s.lh
    && s.passed == map[1 := NextBlock(l, l.size - 2), 2 := NextBlock(l, l.size - 1)]
  }

  lemma RaceChecks(l: Layout, d0: Disk, r: State) returns (c: State, e: State)
    requires Roomy(l, d0) && 2 <= l.size <= LOGSIZE && Filled(l, d0, l.size - 2, r)
    ensures Enabled(l, r, Check(1, NextBlock(l, l.size - 2))) && c == Apply(l, r, Check(1, NextBlock(l, l.size - 2)))
    ensures Enabled(l, c, Check(2, NextBlock(l, l.size - 1))) && e == Apply(l, c, Check(2, NextBlock(l, l.size - 1)))
    ensures BothPassed(l, d0, e)
  {
    hide Readable, Head, Share;
    var m := l.size - 2;
    FillShare(m);
    FillCheck(l, d0, m, r, 1);
    c := r.(passed := map[1 := NextBlock(l, m)]);
    SecondCheck(l, d0, m, r, c);
    e := c.(passed := map[1 := NextBlock(l, m), 2 := NextBlock(l, m + 1)]);
    hide CanCheck;
    assert r.passed[1 := NextBlock(l, m)] == c.passed;
    assert c.passed[2 := NextBlock(l, m + 1)] == e.passed;
  }

  lemma SecondCheck(l: Layout, d0: Disk, m: nat, r: State, c: State)
    requires Roomy(l, d0) && m + 1 < LOGSIZE && Filled(l, d0, m, r) && Share(m, 2) < MAXOPBLOCKS
    requires c == r.(passed := map[1 := NextBlock(l, m)])
    ensures CanCheck(l, c, 2, NextBlock(l, m + 1)) && NextBlock(l, m + 1) !in c.lh
  {
    hide Readable, Head, Share;
    assert 2 in r.open.Keys;
  }

  lemma RaceWrites(l: Layout, d0: Disk, e: State) returns (w: State)
    requires BothPassed(l, d0, e)
    ensures Enabled(l, e, Write(1, [])) && w == Apply(l, e, Write(1, [])) && Enabled(l, w, Write(2, Stray(l, d0)))
    ensures var t := Apply(l, w, Write(2, Stray(l, d0))); Overfull(l, d0, t) && t.phase.Idle? && t.open.Keys == {0, 1, 2}
  {
    hide Stray;
    var b := NextBlock(l, l.size - 2);
    assert 1 in e.open.Keys;
    w := Apply(l, e, Write(1, []));
    assert w.lh == e.lh + [b] && w.passed == map[2 := b + 1] && w.open.Keys == e.open.Keys;
    assert 2 in w.open.Keys;
    var t := Apply(l, w, Write(2, Stray(l, d0)));
    assert t.lh == e.lh + [b] + [b + 1] && t.passed == map[];
    assert t.open.Keys == {0, 1, 2};
  }

  /** The three operations end, and the last one starts to commit. */
  lemma RaceEnds(l: Layout, d0: Disk, s: State) returns (u: State, v: State, t: State)
    requires Overfull(l, d0, s) && s.phase.Idle? && s.open.Keys == {0, 1, 2}
    ensures Enabled(l, s, End(0)) && u == Apply(l, s, End(0))
    ensures Enabled(l, u, End(1)) && v == Apply(l, u, End(1))
    ensures Enabled(l, v, End(2)) && t == Apply(l, v, End(2))
    ensures Overfull(l, d0, t) && t.phase == Committing(d0, 0)
  {
    hide Stray;
    assert 0 in s.open.Keys;
    u := Apply(l, s, End(0));
    assert u.open.Keys == {1, 2} && 1 in u.open.Keys;
    v := Apply(l, u, End(1));
    assert v.open.Keys == {2} && 2 in v.open.Keys;
    t := Apply(l, v, End(2));
    assert (v.open - {2}).Keys == {};
    assert v.open - {2} == map[];
  }

  lemma RaceRun(l: Layout, d0: Disk) returns (run: Run, s: State)
    requires Roomy(l, d0) && 2 <= l.size <= LOGSIZE
    ensures Reaches(l, d0, run, s) && Overfull(l, d0, s) && s.phase == Committing(d0, 0)
  {
    hide Enabled, Apply, Filled, Initial, Readable, Head, Overfull, BothPassed, Stray;
    var fill, r := FillLog(l, d0, l.size - 2);
    var c, e := RaceChecks(l, d0, r);
    var b := NextBlock(l, l.size - 2);
    var w := RaceWrites(l, d0, e);
    var o := Apply(l, w, Write(2, Stray(l, d0)));
    var u, v, t := RaceEnds(l, d0, o);
    var r1 := Then(Then(fill, r, Check(1, b)), c, Check(2, b + 1));
    var r2 := Then(Then(r1, e, Write(1, [])), w, Write(2, Stray(l, d0)));
    assert Reaches(l, d0, r1, e);
    assert Reaches(l, d0, r2, o);
    var r3 := Then(Then(r2, o, End(0)), u, End(1));
    assert Reaches(l, d0, r3, v);
    run, s := Then(r3, v, End(2)), t;
  }

  /** The commit writes the log blocks, the last one over the block after the log area. */
  ghost predicate Overrunning(l: Layout, d0: Disk, k: nat, s: State) {
    && s.phase.Committing? && s.phase.base == d0 && s.phase.k == k && s.durable == 0 && Spares(l, s.events)
    && l.start + l.size < |d0|
    && |s.lh| == l.size > 0 && s.lh[l.size - 1] in s.cache && s.cache[s.lh[l.size - 1]] == Stray(l, d0)
  }

  lemma {:induction false} OverrunRun(l: Layout, d0: Disk, k: nat) returns (run: Run, s: State)
    requires Roomy(l, d0) && 2 <= l.size <= LOGSIZE && k <= l.size
    ensures Reaches(l, d0, run, s) && Overrunning(l, d0, k, s)
  {
    hide Readable, Head, Stray, CommitPoint;
    if k == 0 {
      run, s := RaceRun(l, d0);
    } else {
      var before, r := OverrunRun(l, d0, k - 1);
      ReachableInv(l, d0, before, r);
      run, s := Then(before, r, CommitWrite), Apply(l, r, CommitWrite);
    }
  }

  /** In every run the disk recovers to the logical state at a moment with no open operation. */
  ghost predicate AlwaysRecovers(l: Layout, d0: Disk) {
    forall run, s :: Reaches(l, d0, run, s) ==> Readable(l, s.disk) && exists m: nat :: RecoversTo(l, d0, s, m)
  }

  /** The disk recovers to the logical state after the first `m` events, a moment with no open operation. */
  ghost predicate RecoversTo(l: Layout, d0: Disk, s: State, m: nat)
    requires Readable(l, s.disk)
  {
    Quiet(s.events, m) && SameHome(l, Recover(l, s.disk), Replay(d0, s.events[..m]))
  }

  /** Writing as many log blocks as the area has, before the header, changes the home block after the area. */
  lemma OverrunDisk(l: Layout, d0: Disk, lh: seq<int>, data: seq<Block>)
    requires Roomy(l, d0) && Loggable(l, d0, lh) && |data| == |lh| == l.size && data[l.size - 1] != d0[l.start + l.size]
    ensures var d := CommitPoint(l, d0, lh, data, l.size);
            && Readable(l, d) && Head(l, d) == [] && |Recover(l, d)| == |d0|
            && Recover(l, d)[l.start + l.size] != d0[l.start + l.size]
  {
    hide Recover;
    var d := WriteLog(l, d0, data, l.size);
    assert d[l.start + 1 + (l.size - 1)] == data[l.size - 1];
    assert d[l.start] == d0[l.start];
    assert Head(l, d) == [];
    RecoverInstalls(l, d);
  }

  /** No moment of the history has changed that block. */
  lemma {:induction false} ReplaySpares(l: Layout, d0: Disk, ev: seq<Event>)
    requires Spares(l, ev) && l.start + l.size < |d0|
    ensures Replay(d0, ev)[l.start + l.size] == d0[l.start + l.size]
  {
    if ev != [] {
      ReplaySpares(l, d0, ev[..|ev| - 1]);
    }
  }

  /** When the log area is too small, the run above leaves a home block overwritten before the header is written: the
      disk recovers to no moment of the history. */
  lemma OverrunLosesABlock(l: Layout, d0: Disk) returns (run: Run, s: State)
    requires Roomy(l, d0) && 2 <= l.size <= LOGSIZE
    ensures Reaches(l, d0, run, s) && Readable(l, s.disk) && Head(l, s.disk) == []
    ensures forall m: nat :: m <= |s.events| ==> !SameHome(l, Recover(l, s.disk), Replay(d0, s.events[..m]))
  {
    hide Reaches, Recover, Reserved, Readable, Head, CommitPoint, Replay;
    run, s := OverrunRun(l, d0, l.size);
    ReachableInv(l, d0, run, s);
    assert Pinned(s)[l.size - 1] == Stray(l, d0);
    OverrunDisk(l, d0, s.lh, Pinned(s));
    forall m: nat | m <= |s.events| ensures !SameHome(l, Recover(l, s.disk), Replay(d0, s.events[..m])) {
      ReplaySpares(l, d0, s.events[..m]);
    }
  }

  /** Group commit is safe exactly when the log area fits.  log_write's test is made before it takes the lock, so two
      operations can pass it together, and then the log runs over the block after its area. */
  lemma GroupCommitExactly(l: Layout, d0: Disk)
    requires Roomy(l, d0)
    ensures AlwaysRecovers(l, d0) <==> Fits(l)
  {
    hide Reaches, Recover, Readable, Replay, SameHome;
    if Fits(l) {
      forall run, s | Reaches(l, d0, run, s) ensures Readable(l, s.disk) && exists m: nat :: RecoversTo(l, d0, s, m) {
        GroupCommit(l, d0, run, s);
        assert RecoversTo(l, d0, s, s.durable);
      }
    } else {
      AreaSize(l, d0);
      var run, s := OverrunLosesABlock(l, d0);
    }
  }

  lemma AreaSize(l: Layout, d: Disk)
    requires Readable(l, d)
    ensures l.size >= 1
  {
  }
}
