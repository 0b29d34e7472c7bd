/** The process table as a transition system: every step is one section under `ptable.lock`, or a
    step of fork or allocproc outside it. */
module ProcTable {

  datatype State = Unused | Embryo | Sleeping | Runnable | Running | Zombie

  /** A process sleeps in wait() on its own slot, and elsewhere on some other address. */
  datatype Chan = NoChan | OnProc(slot: int) | OnOther(id: int)

  const NONE := -1
  const DEFAULT_PRIORITY := 10

  /** `maker` is the process that is creating an Embryo in fork. */
  datatype Proc = Proc(state: State, pid: nat, parent: int, chan: Chan, killed: bool, priority: int, maker: int)

  /** `cpu[c]` is the slot that CPU `c` runs, or NONE. */
  datatype Table = Table(procs: seq<Proc>, cpu: seq<int>, nextpid: nat, init: nat)

  predicate Slot(t: Table, i: int) { 0 <= i < |t.procs| }

  predicate Alive(p: Proc) { p.state == Sleeping || p.state == Runnable || p.state == Running }

  predicate InUse(p: Proc) { p.state != Unused && p.state != Embryo }

  // ---- The invariant ----

  /** RUNNING processes are exactly the current ones of the CPUs, one each. */
  ghost predicate CpuInv(t: Table) {
    && (forall c :: 0 <= c < |t.cpu| && t.cpu[c] != NONE ==> Slot(t, t.cpu[c]) && t.procs[t.cpu[c]].state == Running)
    && (forall c, d :: 0 <= c < d < |t.cpu| && t.cpu[c] != NONE ==> t.cpu[c] != t.cpu[d])
    && (forall i :: 0 <= i < |t.procs| && t.procs[i].state == Running ==> i in t.cpu)
  }

  /** Pids of slots in use are distinct and below the counter. */
  ghost predicate PidInv(t: Table) {
    && (forall i :: 0 <= i < |t.procs| && t.procs[i].state != Unused ==> 0 < t.procs[i].pid < t.nextpid)
    && (forall i, j :: 0 <= i < j < |t.procs| && t.procs[i].state != Unused && t.procs[j].state != Unused ==>
          t.procs[i].pid != t.procs[j].pid)
  }

  /** Every process but init has a living parent that is older; so parents lead to init. */
  ghost predicate ParentOk(t: Table, i: int)
    requires 0 <= i < |t.procs|
  {
    var p := t.procs[i];
    && (InUse(p) && i != t.init ==>
          Slot(t, p.parent) && Alive(t.procs[p.parent]) && t.procs[p.parent].pid < p.pid)
    && (p.state == Embryo ==>
          Slot(t, p.maker) && Alive(t.procs[p.maker]) && t.procs[p.maker].pid < p.pid && (p.parent == NONE || p.parent == p.maker))
    && (p.state == Unused ==> p.parent == NONE)
  }

  ghost predicate ParentInv(t: Table) {
    && t.init < |t.procs| && Alive(t.procs[t.init]) && t.procs[t.init].parent == NONE
    && (forall i :: 0 <= i < |t.procs| ==> ParentOk(t, i))
    && (forall i :: 0 <= i < |t.procs| && t.procs[i].state != Unused && i != t.init ==> t.procs[t.init].pid < t.procs[i].pid)
  }

  ghost predicate HasChild(t: Table, i: int) {
    exists k :: 0 <= k < |t.procs| && t.procs[k].parent == i
  }

  /** A process asleep in wait() has a child and no zombie child. */
  ghost predicate WaitInv(t: Table) {
    && (forall i :: 0 <= i < |t.procs| && t.procs[i].state == Sleeping && t.procs[i].chan.OnProc? ==>
          t.procs[i].chan.slot == i && HasChild(t, i))
    && (forall i, k :: 0 <= i < |t.procs| && 0 <= k < |t.procs| && t.procs[k].parent == i ==>
          t.procs[i].state == Sleeping && t.procs[i].chan == OnProc(i) ==> t.procs[k].state != Zombie)
  }

  ghost predicate Inv(t: Table) {
    CpuInv(t) && PidInv(t) && ParentInv(t) && WaitInv(t)
  }

  // ---- Updates ----

  function Set(t: Table, i: nat, p: Proc): Table
    requires i < |t.procs|
  {
    t.(procs := t.procs[i := p])
  }

  /** wakeup1 */
  function Woken(p: Proc, c: Chan): Proc {
    if p.state == Sleeping && p.chan == c then p.(state := Runnable) else p
  }

  function Wake(t: Table, c: Chan): (r: Table)
    ensures r.cpu == t.cpu && r.nextpid == t.nextpid && r.init == t.init && |r.procs| == |t.procs|
    ensures forall i :: 0 <= i < |t.procs| ==> r.procs[i] == Woken(t.procs[i], c)
  {
    t.(procs := seq(|t.procs|, i requires 0 <= i < |t.procs| => Woken(t.procs[i], c)))
  }

  /** The CPU that runs slot `i` goes back to its scheduler. */
  function LeaveCpu(cpu: seq<int>, i: int): (r: seq<int>)
    ensures |r| == |cpu| && forall c :: 0 <= c < |cpu| ==> r[c] == if cpu[c] == i then NONE else cpu[c]
  {
    seq(|cpu|, c requires 0 <= c < |cpu| => if cpu[c] == i then NONE else cpu[c])
  }

  /** Slot `p` is not in the middle of fork. */
  ghost predicate NotForking(t: Table, p: int) {
    forall q :: 0 <= q < |t.procs| && t.procs[q].state == Embryo ==> t.procs[q].maker != p
  }

  predicate IsRunning(t: Table, p: int) { Slot(t, p) && t.procs[p].state == Running }

  // ---- Steps ----

  datatype Step =
    | AllocProc(p: nat, q: nat)     // allocproc called by p takes slot q
    | AllocFail(q: nat)             // out of memory before the parent is set
    | SetParent(q: nat)
    | Publish(q: nat)               // fork makes the child RUNNABLE
    | Exit(p: nat)
    | Reap(p: nat, q: nat)          // wait finds zombie child q
    | WaitSleep(p: nat)             // wait finds no zombie child and goes to sleep
    | SleepOn(p: nat, id: int)
    | Wakeup(id: int)
    | Yield(p: nat)
    | Dispatch(c: nat, p: nat)
    | Kill(q: nat)

  ghost predicate Enabled(t: Table, s: Step) {
    match s
    case AllocProc(p, q) => IsRunning(t, p) && q < |t.procs| && t.procs[q].state == Unused
    case AllocFail(q) => q < |t.procs| && t.procs[q].state == Embryo && t.procs[q].parent == NONE
    case SetParent(q) => q < |t.procs| && t.procs[q].state == Embryo
    case Publish(q) => q < |t.procs| && t.procs[q].state == Embryo && t.procs[q].parent == t.procs[q].maker
    case Exit(p) => IsRunning(t, p) && p != t.init && NotForking(t, p)
    case Reap(p, q) => IsRunning(t, p) && q < |t.procs| && t.procs[q].parent == p && t.procs[q].state == Zombie
    case WaitSleep(p) =>
      && IsRunning(t, p) && HasChild(t, p) && !t.procs[p].killed
      && forall k :: 0 <= k < |t.procs| && t.procs[k].parent == p ==> t.procs[k].state != Zombie
    case SleepOn(p, _) => IsRunning(t, p)
    case Wakeup(_) => true
    case Yield(p) => IsRunning(t, p)
    case Dispatch(c, p) => c < |t.cpu| && t.cpu[c] == NONE && p < |t.procs| && t.procs[p].state == Runnable
    case Kill(q) => q < |t.procs|
  }

  /** exit, after waking the parent: children go to init, and a zombie among them wakes init. */
  function Reparented(t: Table, p: nat): (r: Table)
    ensures r.cpu == t.cpu && r.nextpid == t.nextpid && r.init == t.init && |r.procs| == |t.procs|
    ensures forall i :: 0 <= i < |t.procs| ==>
              r.procs[i] == if t.procs[i].parent == p then t.procs[i].(parent := t.init) else t.procs[i]
  {
    t.(procs := seq(|t.procs|, i requires 0 <= i < |t.procs| =>
      if t.procs[i].parent == p then t.procs[i].(parent := t.init) else t.procs[i]))
  }

  predicate ZombieChild(t: Table, p: nat) {
    exists k :: 0 <= k < |t.procs| && t.procs[k].parent == p && t.procs[k].state == Zombie
  }

  function Exited(t: Table, p: nat): Table
    requires p < |t.procs|
  {
    var a := Wake(t, OnProc(t.procs[p].parent));
    var b := Reparented(a, p);
    var c := if ZombieChild(a, p) then Wake(b, OnProc(t.init)) else b;
    Set(c, p, c.procs[p].(state := Zombie)).(cpu := LeaveCpu(t.cpu, p))
  }

  ghost function Apply(t: Table, s: Step): Table
    requires Enabled(t, s)
  {
    match s
    case AllocProc(p, q) =>
      Set(t, q, t.procs[q].(state := Embryo, pid := t.nextpid, priority := DEFAULT_PRIORITY, maker := p)).(nextpid := t.nextpid + 1)
    case AllocFail(q) => Set(t, q, t.procs[q].(state := Unused))
    case SetParent(q) => Set(t, q, t.procs[q].(parent := t.procs[q].maker))
    case Publish(q) => Set(t, q, t.procs[q].(state := Runnable))
    case Exit(p) => Exited(t, p)
    case Reap(p, q) => Set(t, q, t.procs[q].(state := Unused, pid := 0, parent := NONE, killed := false))
    case WaitSleep(p) => Set(t, p, t.procs[p].(state := Sleeping, chan := OnProc(p))).(cpu := LeaveCpu(t.cpu, p))
    case SleepOn(p, id) => Set(t, p, t.procs[p].(state := Sleeping, chan := OnOther(id))).(cpu := LeaveCpu(t.cpu, p))
    case Wakeup(id) => Wake(t, OnOther(id))
    case Yield(p) => Set(t, p, t.procs[p].(state := Runnable)).(cpu := LeaveCpu(t.cpu, p))
    case Dispatch(c, p) => Set(t, p, t.procs[p].(state := Running, chan := NoChan)).(cpu := t.cpu[c := p])
    case Kill(q) =>
      Set(t, q, t.procs[q].(killed := true, state := if t.procs[q].state == Sleeping then Runnable else t.procs[q].state))
  }

  // ---- Each step keeps the invariant ----

  /** Children stay children when slots are updated in place without touching parents. */
  lemma ChildKept(t: Table, u: Table, i: int)
    requires |u.procs| == |t.procs| && HasChild(t, i)
    requires forall k :: 0 <= k < |t.procs| && t.procs[k].parent == i ==> u.procs[k].parent == i
    ensures HasChild(u, i)
  {
    var k :| 0 <= k < |t.procs| && t.procs[k].parent == i;
    assert u.procs[k].parent == i;
  }

  /** `u` differs from `t` in slot `q`, the CPUs and the counter at most. */
  ghost predicate OnlySlot(t: Table, u: Table, q: nat) {
    && q < |t.procs| == |u.procs| && u.init == t.init && |u.cpu| == |t.cpu| && t.nextpid <= u.nextpid
    && forall i :: 0 <= i < |t.procs| && i != q ==> u.procs[i] == t.procs[i]
  }

  /** What an update of slot `q` must respect to keep the parent relation. */
  lemma ParentKept(t: Table, u: Table, q: nat)
    requires ParentInv(t) && OnlySlot(t, u, q)
    requires Alive(t.procs[q]) ==> Alive(u.procs[q]) && u.procs[q].pid == t.procs[q].pid && u.procs[q].parent == t.procs[q].parent
    requires ParentOk(u, q) && (u.procs[q].state != Unused && q != t.init ==> t.procs[t.init].pid < u.procs[q].pid)
    ensures ParentInv(u)
  {
    forall i | 0 <= i < |u.procs| ensures ParentOk(u, i) {
      assert ParentOk(t, i);
    }
  }

  lemma PidKept(t: Table, u: Table, q: nat)
    requires PidInv(t) && OnlySlot(t, u, q)
    requires u.procs[q].state != Unused ==>
               (t.procs[q].state != Unused && u.procs[q].pid == t.procs[q].pid)
               || (t.nextpid <= u.procs[q].pid < u.nextpid && 0 < t.nextpid)
    ensures PidInv(u)
  {
  }

  /** Slot `q` neither starts nor stops running. */
  lemma CpuKept(t: Table, u: Table, q: nat)
    requires CpuInv(t) && OnlySlot(t, u, q) && u.cpu == t.cpu
    requires u.procs[q].state == Running <==> t.procs[q].state == Running
    ensures CpuInv(u)
  {
  }

  /** Slot `q` stops running and its CPU becomes idle. */
  lemma CpuLeft(t: Table, u: Table, q: nat)
    requires CpuInv(t) && OnlySlot(t, u, q) && u.cpu == LeaveCpu(t.cpu, q)
    requires u.procs[q].state != Running
    ensures CpuInv(u)
  {
    forall i | 0 <= i < |u.procs| && u.procs[i].state == Running ensures i in u.cpu {
      var c :| 0 <= c < |t.cpu| && t.cpu[c] == i;
      assert u.cpu[c] == i;
    }
  }

  /** Slot `q` does not lose its parent to the sleepers, and does not become a zombie. */
  lemma WaitKept(t: Table, u: Table, q: nat)
    requires WaitInv(t) && OnlySlot(t, u, q)
    requires u.procs[q].state != Zombie || t.procs[q].state == Zombie
    requires u.procs[q].parent == t.procs[q].parent || !Sleeper(t, t.procs[q].parent)
    requires u.procs[q].parent == t.procs[q].parent || u.procs[q].state != Zombie
    requires u.procs[q].state == Sleeping && u.procs[q].chan.OnProc? ==> t.procs[q].state == Sleeping && u.procs[q].chan == t.procs[q].chan
    ensures WaitInv(u)
  {
    forall i | 0 <= i < |u.procs| && u.procs[i].state == Sleeping && u.procs[i].chan.OnProc? ensures HasChild(u, i) {
      ChildKept(t, u, i);
    }
  }

  /** Slot `i` is asleep in wait(). */
  ghost predicate Sleeper(t: Table, i: int) {
    Slot(t, i) && t.procs[i].state == Sleeping && t.procs[i].chan == OnProc(i)
  }

  lemma AllocInv(t: Table, p: nat, q: nat)
    requires Inv(t) && Enabled(t, AllocProc(p, q))
    ensures Inv(Apply(t, AllocProc(p, q)))
  {
    var u := Apply(t, AllocProc(p, q));
    assert ParentOk(t, q) && t.procs[t.init].pid < t.nextpid;
    assert OnlySlot(t, u, q) && ParentOk(u, q);
    hide CpuInv, PidInv, ParentInv, WaitInv;
    CpuKept(t, u, q);
    PidKept(t, u, q);
    ParentKept(t, u, q);
    WaitKept(t, u, q);
  }

  lemma OneSlotInv(t: Table, s: Step)
    requires Inv(t) && Enabled(t, s) && (s.AllocFail? || s.SetParent? || s.Publish? || s.Reap? || s.Kill?)
    ensures Inv(Apply(t, s))
  {
    var u := Apply(t, s);
    assert ParentOk(t, s.q);
    assert OnlySlot(t, u, s.q) && ParentOk(u, s.q) && u.cpu == t.cpu;
    assert !Sleeper(t, t.procs[s.q].parent) || u.procs[s.q].parent == t.procs[s.q].parent;
    assert s.q != t.init && u.procs[s.q].state != Unused ==> t.procs[t.init].pid < u.procs[s.q].pid;
    hide CpuInv, PidInv, ParentInv, WaitInv, Apply;
    CpuKept(t, u, s.q);
    PidKept(t, u, s.q);
    ParentKept(t, u, s.q);
    WaitKept(t, u, s.q);
  }

  lemma LeaveInv(t: Table, s: Step)
    requires Inv(t) && Enabled(t, s) && (s.SleepOn? || s.Yield?)
    ensures Inv(Apply(t, s))
  {
    var u := Apply(t, s);
    assert ParentOk(t, s.p);
    assert OnlySlot(t, u, s.p) && ParentOk(u, s.p);
    assert s.p != t.init ==> t.procs[t.init].pid < u.procs[s.p].pid;
    hide CpuInv, PidInv, ParentInv, WaitInv, Apply;
    CpuLeft(t, u, s.p);
    PidKept(t, u, s.p);
    ParentKept(t, u, s.p);
    WaitKept(t, u, s.p);
  }

  lemma WaitSleepInv(t: Table, p: nat)
    requires Inv(t) && Enabled(t, WaitSleep(p))
    ensures Inv(Apply(t, WaitSleep(p)))
  {
    var u := Apply(t, WaitSleep(p));
    assert ParentOk(t, p);
    assert OnlySlot(t, u, p) && ParentOk(u, p);
    assert p != t.init ==> t.procs[t.init].pid < u.procs[p].pid;
    forall i | 0 <= i < |u.procs| && u.procs[i].state == Sleeping && u.procs[i].chan.OnProc? ensures HasChild(u, i) {
      ChildKept(t, u, i);
    }
    assert WaitInv(u);
    hide CpuInv, PidInv, ParentInv, WaitInv;
    CpuLeft(t, u, p);
    PidKept(t, u, p);
    ParentKept(t, u, p);
  }

  lemma DispatchInv(t: Table, c: nat, p: nat)
    requires Inv(t) && Enabled(t, Dispatch(c, p))
    ensures Inv(Apply(t, Dispatch(c, p)))
  {
    var u := Apply(t, Dispatch(c, p));
    assert ParentOk(t, p);
    assert OnlySlot(t, u, p) && ParentOk(u, p);
    assert p != t.init ==> t.procs[t.init].pid < u.procs[p].pid;
    assert CpuInv(u) by {
      hide PidInv, ParentInv, WaitInv;
      assert u.cpu[c] == p;
      forall i | 0 <= i < |u.procs| && u.procs[i].state == Running ensures i in u.cpu {
        if i != p {
          var d :| 0 <= d < |t.cpu| && t.cpu[d] == i;
          assert u.cpu[d] == i;
        }
      }
    }
    hide CpuInv, PidInv, ParentInv, WaitInv;
    PidKept(t, u, p);
    ParentKept(t, u, p);
    WaitKept(t, u, p);
  }

  /** `u` is `t` with some sleepers made RUNNABLE. */
  ghost predicate Roused(t: Table, u: Table) {
    && |u.procs| == |t.procs| && u.cpu == t.cpu && u.nextpid == t.nextpid && u.init == t.init
    && forall i :: 0 <= i < |t.procs| ==>
         u.procs[i] == t.procs[i] || (t.procs[i].state == Sleeping && u.procs[i] == t.procs[i].(state := Runnable))
  }

  lemma RousedParents(t: Table, u: Table)
    requires ParentInv(t) && Roused(t, u)
    ensures ParentInv(u)
  {
    forall i | 0 <= i < |u.procs| ensures ParentOk(u, i) {
      assert ParentOk(t, i);
    }
  }

  lemma RousedWaits(t: Table, u: Table)
    requires WaitInv(t) && Roused(t, u)
    ensures WaitInv(u)
  {
    forall i | 0 <= i < |u.procs| && u.procs[i].state == Sleeping && u.procs[i].chan.OnProc? ensures HasChild(u, i) {
      ChildKept(t, u, i);
    }
  }

  lemma RousedInv(t: Table, u: Table)
    requires Inv(t) && Roused(t, u)
    ensures Inv(u)
  {
    assert CpuInv(u) && PidInv(u);
    hide CpuInv, PidInv, ParentInv, WaitInv;
    RousedParents(t, u);
    RousedWaits(t, u);
  }

  // ---- exit ----

  /** Slot `i` after the exit of `p`, with `woken` for a zombie passed to init. */
  function ExitedProc(q: Proc, i: int, p: int, init: int, woken: bool): Proc {
    var r := if q.parent == p then q.(parent := init) else q;
    var s := if woken then Woken(r, OnProc(init)) else r;
    if i == p then s.(state := Zombie) else s
  }

  /** `u` is `a` after the rest of exit, when the parent has been woken. */
  ghost predicate ExitRest(a: Table, u: Table, p: nat) {
    && p < |a.procs| == |u.procs| && u.cpu == LeaveCpu(a.cpu, p) && u.nextpid == a.nextpid && u.init == a.init
    && forall i :: 0 <= i < |a.procs| ==> u.procs[i] == ExitedProc(a.procs[i], i, p, a.init, ZombieChild(a, p))
  }

  /** What exit does to a slot, field by field. */
  ghost predicate ExitShape(a: Table, u: Table, p: nat, i: int)
    requires 0 <= i < |a.procs| == |u.procs|
  {
    var q, r := a.procs[i], u.procs[i];
    && r.pid == q.pid && r.maker == q.maker && r.parent == (if q.parent == p then a.init else q.parent)
    && (i == p ==> r.state == Zombie)
    && (i != p ==> r.state == q.state || (q.state == Sleeping && r.state == Runnable))
  }

  lemma ExitShapes(a: Table, u: Table, p: nat)
    requires ExitRest(a, u, p)
    ensures forall i :: 0 <= i < |a.procs| ==> ExitShape(a, u, p, i)
  {
    hide LeaveCpu, ZombieChild;
  }

  lemma ExitParentOk(a: Table, u: Table, p: nat, i: int)
    requires ParentInv(a) && IsRunning(a, p) && p != a.init && NotForking(a, p)
    requires |u.procs| == |a.procs| && u.init == a.init && Slot(a, i)
    requires forall k :: 0 <= k < |a.procs| ==> ExitShape(a, u, p, k)
    ensures ParentOk(u, i)
  {
    assert ParentOk(a, i) && ExitShape(a, u, p, i) && ExitShape(a, u, p, a.init);
    var j := a.procs[i].parent;
    if Slot(a, j) {
      assert ExitShape(a, u, p, j);
    }
    if Slot(a, a.procs[i].maker) {
      assert ExitShape(a, u, p, a.procs[i].maker);
    }
  }

  lemma ExitParents(a: Table, u: Table, p: nat)
    requires ParentInv(a) && ExitRest(a, u, p) && IsRunning(a, p) && p != a.init && NotForking(a, p)
    ensures ParentInv(u)
  {
    ExitShapes(a, u, p);
    hide ExitRest;
    forall i | 0 <= i < |u.procs| ensures ParentOk(u, i) {
      ExitParentOk(a, u, p, i);
    }
    assert ExitShape(a, u, p, a.init);
  }

  lemma ExitWaits(a: Table, u: Table, p: nat)
    requires WaitInv(a) && ExitRest(a, u, p) && IsRunning(a, p) && p != a.init
    requires !Sleeper(a, a.procs[p].parent) && a.procs[p].parent != p
    ensures WaitInv(u)
  {
    hide LeaveCpu;
    forall i | 0 <= i < |u.procs| && u.procs[i].state == Sleeping && u.procs[i].chan.OnProc?
      ensures u.procs[i].chan.slot == i && HasChild(u, i)
    {
      assert a.procs[i].state == Sleeping && a.procs[i].chan == u.procs[i].chan;
      ChildKept(a, u, i);
    }
    forall i, k | 0 <= i < |u.procs| && 0 <= k < |u.procs| && u.procs[k].parent == i && Sleeper(u, i)
      ensures u.procs[k].state != Zombie
    {
      assert Sleeper(a, i);
      assert a.procs[k].parent == p && a.procs[k].state == Zombie ==> ZombieChild(a, p);
    }
  }

  lemma ExitCpus(a: Table, u: Table, p: nat)
    requires CpuInv(a) && ExitRest(a, u, p) && IsRunning(a, p)
    ensures CpuInv(u)
  {
    hide ZombieChild;
    forall i | 0 <= i < |u.procs| && u.procs[i].state == Running ensures i in u.cpu {
      var c :| 0 <= c < |a.cpu| && a.cpu[c] == i;
      assert u.cpu[c] == i;
    }
  }

  lemma ExitPids(a: Table, u: Table, p: nat)
    requires PidInv(a) && ExitRest(a, u, p) && IsRunning(a, p)
    ensures PidInv(u)
  {
    hide LeaveCpu, ZombieChild;
  }

  lemma ExitWakes(t: Table, p: nat)
    requires Enabled(t, Exit(p))
    ensures var a := Wake(t, OnProc(t.procs[p].parent));
            && Roused(t, a) && ExitRest(a, Exited(t, p), p)
            && IsRunning(a, p) && NotForking(a, p) && !Sleeper(a, a.procs[p].parent) && a.procs[p].parent == t.procs[p].parent
  {
    hide LeaveCpu;
    var a := Wake(t, OnProc(t.procs[p].parent));
    assert forall i :: 0 <= i < |a.procs| ==> a.procs[i] == Woken(t.procs[i], OnProc(t.procs[p].parent));
  }

  lemma ExitInv(t: Table, p: nat)
    requires Inv(t) && Enabled(t, Exit(p))
    ensures Inv(Exited(t, p))
  {
    var a, u := Wake(t, OnProc(t.procs[p].parent)), Exited(t, p);
    hide CpuInv, PidInv, WaitInv, LeaveCpu;
    assert ParentOk(t, p);
    ExitWakes(t, p);
    hide Wake, Exited, ParentInv, Sleeper, NotForking, ExitRest;
    RousedInv(t, a);
    ExitPids(a, u, p);
    ExitCpus(a, u, p);
    ExitParents(a, u, p);
    ExitWaits(a, u, p);
  }

  // ---- Every run ----

  lemma StepInv(t: Table, s: Step)
    requires Inv(t) && Enabled(t, s)
    ensures Inv(Apply(t, s))
  {
    match s
    case AllocProc(p, q) => AllocInv(t, p, q);
    case Exit(p) => ExitInv(t, p);
    case WaitSleep(p) => WaitSleepInv(t, p);
    case SleepOn(p, _) => LeaveInv(t, s);
    case Yield(p) => LeaveInv(t, s);
    case Dispatch(c, p) => DispatchInv(t, c, p);
    case Wakeup(id) => RousedInv(t, Apply(t, s));
    case _ => OneSlotInv(t, s);
  }

  /** Booting: init alone, RUNNABLE, all CPUs idle. */
  ghost predicate Booted(t: Table) {
    && t.init < |t.procs| && t.procs[t.init].state == Runnable && t.procs[t.init].pid == 1 && t.nextpid == 2
    && t.procs[t.init].parent == NONE && !t.procs[t.init].killed
    && (forall i :: 0 <= i < |t.procs| && i != t.init ==> t.procs[i].state == Unused && t.procs[i].parent == NONE)
    && (forall c :: 0 <= c < |t.cpu| ==> t.cpu[c] == NONE)
  }

  /** A finite run: each step with the table it is taken in. */
  datatype Run = Boot | Then(before: Run, r: Table, step: Step)

  ghost predicate Reaches(run: Run, t: Table) {
    match run
    case Boot => Booted(t)
    case Then(before, r, step) => Reaches(before, r) && Enabled(r, step) && t == Apply(r, step)
  }

  lemma {:induction false} ReachableInv(run: Run, t: Table)
    requires Reaches(run, t)
    ensures Inv(t)
  {
    match run
    case Boot =>
    case Then(before, r, step) =>
      hide Inv;
      ReachableInv(before, r);
      StepInv(r, step);
  }

  /** Parents followed `n` times from slot `i`. */
  function Ancestor(t: Table, i: int, n: nat): int
    decreases n
  {
    if n == 0 || !Slot(t, i) then i else Ancestor(t, t.procs[i].parent, n - 1)
  }

  /** Living processes and zombies form a tree: from each, parents lead to init. */
  lemma {:induction false} ParentsLeadToInit(t: Table, i: int) returns (n: nat)
    requires ParentInv(t) && Slot(t, i) && InUse(t.procs[i])
    ensures Ancestor(t, i, n) == t.init
    decreases t.procs[i].pid
  {
    if i == t.init {
      n := 0;
    } else {
      assert ParentOk(t, i);
      var m := ParentsLeadToInit(t, t.procs[i].parent);
      n := m + 1;
    }
  }
}
