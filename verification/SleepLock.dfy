/** A sleep lock and its use of sleep and wakeup, at the granularity of lock operations, for any
    number of processes.  Other users of the table lock and kill() interfere at any time. */
module SleepLock {

  const NONE := -1
  const OTHER := -2   // a process that holds the table lock for another purpose

  /** Where a process is in acquiresleep, sleep and releasesleep. */
  datatype PC =
    | Outside
    | Acquiring        // about to acquire lk->lk
    | Testing          // holds lk->lk, at the while test
    | Taken            // holds lk->lk, has set locked
    | SleepEnter       // holds lk->lk, found it locked, is calling sleep
    | SleepBoth        // holds lk->lk and the table lock
    | SleepTable       // holds the table lock only, about to become SLEEPING
    | SleepBare        // holds neither lock (only if sleep released lk->lk first)
    | Asleep           // SLEEPING on the lock
    | Roused           // RUNNABLE again, will reacquire lk->lk
    | Holding          // has returned from acquiresleep
    | Releasing        // about to acquire lk->lk in releasesleep
    | RelInner         // holds lk->lk, about to clear locked
    | RelCleared       // holds lk->lk, about to acquire the table lock in wakeup
    | RelTable         // holds both, about to wake the sleepers
    | RelDone          // holds lk->lk, about to release it

  /** `inner` and `table` are the holders of lk->lk and of the table lock, `owner` is lk->pid as a slot. */
  datatype State = State(pcs: seq<PC>, inner: int, table: int, locked: bool, owner: int)

  datatype Step =
    | Move(p: nat)      // process p does its next lock operation or assignment
    | Start(p: nat)     // process p calls acquiresleep
    | Finish(p: nat)    // process p calls releasesleep
    | KillSleeper(p: nat)
    | OtherTakes | OtherDrops

  predicate HoldsInner(c: PC) {
    c.Testing? || c.Taken? || c.SleepEnter? || c.SleepBoth? || c.RelInner? || c.RelCleared? || c.RelTable? || c.RelDone?
  }

  predicate HoldsTable(c: PC) { c.SleepBoth? || c.SleepTable? || c.RelTable? }

  predicate Owns(c: PC) { c.Taken? || c.Holding? || c.Releasing? || c.RelInner? }

  /** A move waits if it needs a lock that is taken.  `tableFirst` is the order of sleep: acquire the
      table lock, then release lk->lk. */
  predicate Enabled(tableFirst: bool, s: State, step: Step) {
    match step
    case Move(p) =>
      p < |s.pcs| &&
      (match s.pcs[p]
       case Acquiring => s.inner == NONE
       case Releasing => s.inner == NONE
       case SleepEnter => tableFirst ==> s.table == NONE
       case SleepBare => s.table == NONE
       case RelCleared => s.table == NONE
       case Roused => s.table == NONE
       case Outside => false
       case Asleep => false
       case Holding => false
       case _ => true)
    case Start(p) => p < |s.pcs| && s.pcs[p].Outside?
    case Finish(p) => p < |s.pcs| && s.pcs[p].Holding?
    case KillSleeper(p) => p < |s.pcs| && s.pcs[p].Asleep? && s.table == NONE
    case OtherTakes => s.table == NONE
    case OtherDrops => s.table == OTHER
  }

  /** wakeup: every sleeper becomes runnable. */
  function WakeAll(pcs: seq<PC>): (r: seq<PC>)
    ensures |r| == |pcs| && forall i :: 0 <= i < |pcs| ==> r[i] == if pcs[i].Asleep? then Roused else pcs[i]
  {
    seq(|pcs|, i requires 0 <= i < |pcs| => if pcs[i].Asleep? then Roused else pcs[i])
  }

  function Goto(s: State, p: nat, c: PC): State
    requires p < |s.pcs|
  {
    s.(pcs := s.pcs[p := c])
  }

  function Apply(tableFirst: bool, s: State, step: Step): State
    requires Enabled(tableFirst, s, step)
  {
    match step
    case Start(p) => Goto(s, p, Acquiring)
    case Finish(p) => Goto(s, p, Releasing)
    case KillSleeper(p) => Goto(s, p, Roused)
    case OtherTakes => s.(table := OTHER)
    case OtherDrops => s.(table := NONE)
    case Move(p) =>
      match s.pcs[p]
      case Acquiring => Goto(s, p, Testing).(inner := p)
      case Testing => if s.locked then Goto(s, p, SleepEnter) else Goto(s, p, Taken).(locked := true, owner := p)
      case Taken => Goto(s, p, Holding).(inner := NONE)
      case SleepEnter => if tableFirst then Goto(s, p, SleepBoth).(table := p) else Goto(s, p, SleepBare).(inner := NONE)
      case SleepBoth => Goto(s, p, SleepTable).(inner := NONE)
      case SleepBare => Goto(s, p, SleepTable).(table := p)
      case SleepTable => Goto(s, p, Asleep).(table := NONE)
      case Roused => Goto(s, p, Acquiring)
      case Releasing => Goto(s, p, RelInner).(inner := p)
      case RelInner => Goto(s, p, RelCleared).(locked := false, owner := NONE)
      case RelCleared => Goto(s, p, RelTable).(table := p)
      case RelTable => Goto(s.(pcs := WakeAll(s.pcs)), p, RelDone).(table := NONE)
      case RelDone => Goto(s, p, Outside).(inner := NONE)
      case _ => s
  }

  // ---- The invariant ----

  /** lk->lk, the table lock and the sleep lock are held by exactly the processes whose position says so. */
  ghost predicate InnerInv(s: State) {
    && (forall p :: 0 <= p < |s.pcs| ==> (HoldsInner(s.pcs[p]) <==> s.inner == p))
    && (s.inner == NONE || 0 <= s.inner < |s.pcs|)
  }

  ghost predicate TableInv(s: State) {
    forall p :: 0 <= p < |s.pcs| ==> (HoldsTable(s.pcs[p]) <==> s.table == p)
  }

  ghost predicate OwnerInv(s: State) {
    && (forall p :: 0 <= p < |s.pcs| ==> (Owns(s.pcs[p]) <==> s.owner == p))
    && (s.locked <==> 0 <= s.owner < |s.pcs|)
  }

  /** Somebody has cleared the lock and is going to wake the sleepers before it lets go of lk->lk. */
  ghost predicate WakeComing(s: State) {
    0 <= s.inner < |s.pcs| && (s.pcs[s.inner].RelCleared? || s.pcs[s.inner].RelTable?)
  }

  /** Nobody is or falls asleep on a lock that is free, unless a wakeup is still to come. */
  ghost predicate SleepInv(s: State) {
    && (forall p :: 0 <= p < |s.pcs| && (s.pcs[p].SleepEnter? || s.pcs[p].SleepBoth?) ==> s.locked)
    && (forall p :: 0 <= p < |s.pcs| && (s.pcs[p].SleepTable? || s.pcs[p].Asleep?) ==> s.locked || WakeComing(s))
    && (forall p :: 0 <= p < |s.pcs| ==> !s.pcs[p].SleepBare?)
  }

  ghost predicate Inv(s: State) { InnerInv(s) && TableInv(s) && OwnerInv(s) && SleepInv(s) }

  ghost predicate Initial(s: State) {
    s.inner == NONE && s.table == NONE && !s.locked && s.owner == NONE && forall p :: 0 <= p < |s.pcs| ==> s.pcs[p].Outside?
  }

  datatype Run = Begin | Then(before: Run, r: State, step: Step)

  ghost predicate Reaches(tableFirst: bool, run: Run, s: State) {
    match run
    case Begin => Initial(s)
    case Then(before, r, step) =>
      Reaches(tableFirst, before, r) && Enabled(tableFirst, r, step) && s == Apply(tableFirst, r, step)
  }

  /** The others do not move, except that sleepers may be woken. */
  lemma Bystander(s: State, p: nat, i: nat)
    requires Enabled(true, s, Move(p)) && i < |s.pcs| && i != p
    ensures var t := Apply(true, s, Move(p));
            |t.pcs| == |s.pcs| && (t.pcs[i] == s.pcs[i] || (s.pcs[i].Asleep? && t.pcs[i].Roused?))
  {
  }

  /** The process that moves. */
  lemma InnerSelf(s: State, p: nat)
    requires Inv(s) && Enabled(true, s, Move(p))
    ensures var t := Apply(true, s, Move(p));
            && |t.pcs| == |s.pcs| && (HoldsInner(t.pcs[p]) <==> t.inner == p)
            && (t.inner == s.inner || t.inner == p || (s.inner == p && t.inner == NONE))
  {
    hide TableInv, OwnerInv, SleepInv;
    assert HoldsInner(s.pcs[p]) <==> s.inner == p;
  }

  lemma InnerAt(s: State, step: Step, i: nat)
    requires Inv(s) && Enabled(true, s, step) && i < |s.pcs|
    ensures var t := Apply(true, s, step); |t.pcs| == |s.pcs| && (HoldsInner(t.pcs[i]) <==> t.inner == i)
  {
    hide TableInv, OwnerInv, SleepInv;
    assert HoldsInner(s.pcs[i]) <==> s.inner == i;
    if step.Move? {
      InnerSelf(s, step.p);
      if i != step.p {
        Bystander(s, step.p, i);
        hide Apply;
      }
    }
  }

  lemma StepInner(s: State, step: Step)
    requires Inv(s) && Enabled(true, s, step)
    ensures InnerInv(Apply(true, s, step))
  {
    hide TableInv, OwnerInv, SleepInv;
    var t := Apply(true, s, step);
    forall i | 0 <= i < |t.pcs| ensures HoldsInner(t.pcs[i]) <==> t.inner == i {
      InnerAt(s, step, i);
    }
  }

  /** The process that moves. */
  lemma TableSelf(s: State, p: nat)
    requires Inv(s) && Enabled(true, s, Move(p))
    ensures var t := Apply(true, s, Move(p));
            && |t.pcs| == |s.pcs| && (HoldsTable(t.pcs[p]) <==> t.table == p)
            && (t.table == s.table || t.table == p || (s.table == p && t.table == NONE))
  {
    hide InnerInv, OwnerInv, SleepInv;
    assert HoldsTable(s.pcs[p]) <==> s.table == p;
  }

  lemma TableAt(s: State, step: Step, i: nat)
    requires Inv(s) && Enabled(true, s, step) && i < |s.pcs|
    ensures var t := Apply(true, s, step); |t.pcs| == |s.pcs| && (HoldsTable(t.pcs[i]) <==> t.table == i)
  {
    hide InnerInv, OwnerInv, SleepInv;
    assert HoldsTable(s.pcs[i]) <==> s.table == i;
    if step.Move? {
      TableSelf(s, step.p);
      if i != step.p {
        Bystander(s, step.p, i);
        hide Apply;
      }
    }
  }

  lemma StepTable(s: State, step: Step)
    requires Inv(s) && Enabled(true, s, step)
    ensures TableInv(Apply(true, s, step))
  {
    hide InnerInv, OwnerInv, SleepInv;
    var t := Apply(true, s, step);
    forall i | 0 <= i < |t.pcs| ensures HoldsTable(t.pcs[i]) <==> t.table == i {
      TableAt(s, step, i);
    }
  }

  /** The process that moves. */
  lemma OwnerSelf(s: State, p: nat)
    requires Inv(s) && Enabled(true, s, Move(p))
    ensures var t := Apply(true, s, Move(p));
            && |t.pcs| == |s.pcs| && (Owns(t.pcs[p]) <==> t.owner == p)
            && (t.owner == s.owner || t.owner == p || (s.owner == p && t.owner == NONE))
  {
    hide TableInv, InnerInv, SleepInv;
    assert Owns(s.pcs[p]) <==> s.owner == p;
  }

  lemma OwnerAt(s: State, step: Step, i: nat)
    requires Inv(s) && Enabled(true, s, step) && i < |s.pcs|
    ensures var t := Apply(true, s, step); |t.pcs| == |s.pcs| && (Owns(t.pcs[i]) <==> t.owner == i)
  {
    hide TableInv, InnerInv, SleepInv;
    assert Owns(s.pcs[i]) <==> s.owner == i;
    if step.Move? {
      OwnerSelf(s, step.p);
      if i != step.p {
        Bystander(s, step.p, i);
        hide Apply;
      }
    }
  }

  lemma StepOwner(s: State, step: Step)
    requires Inv(s) && Enabled(true, s, step)
    ensures OwnerInv(Apply(true, s, step))
  {
    hide TableInv, InnerInv, SleepInv;
    var t := Apply(true, s, step);
    forall i | 0 <= i < |t.pcs| ensures Owns(t.pcs[i]) <==> t.owner == i {
      OwnerAt(s, step, i);
    }
  }

  lemma StepSleeps(s: State, step: Step)
    requires Inv(s) && Enabled(true, s, step)
    ensures SleepInv(Apply(true, s, step))
  {
  }

  lemma {:induction false} ReachableInv(run: Run, s: State)
    requires Reaches(true, run, s)
    ensures Inv(s)
  {
    match run
    case Begin =>
    case Then(before, r, step) =>
      hide InnerInv, TableInv, OwnerInv, SleepInv, Apply;
      ReachableInv(before, r);
      StepInner(r, step);
      StepTable(r, step);
      StepOwner(r, step);
      StepSleeps(r, step);
  }

  /** Mutual exclusion: at most one process holds the sleep lock. */
  lemma OneHolder(run: Run, s: State, p: nat, q: nat)
    requires Reaches(true, run, s) && p < |s.pcs| && q < |s.pcs|
    requires s.pcs[p].Holding? && s.pcs[q].Holding?
    ensures p == q && s.locked && s.owner == p
  {
    ReachableInv(run, s);
  }

  /** No lost wakeup: whenever lk->lk is free, a process asleep on the lock implies that another
      process owns it and will wake it. */
  lemma NoLostWakeup(run: Run, s: State, p: nat)
    requires Reaches(true, run, s) && s.inner == NONE && p < |s.pcs| && s.pcs[p].Asleep?
    ensures s.locked && 0 <= s.owner < |s.pcs| && s.owner != p && Owns(s.pcs[s.owner])
  {
    ReachableInv(run, s);
  }

  // ---- Why sleep takes the table lock first ----

  lemma Extend(run: Run, s: State, step: Step) returns (run': Run, s': State)
    requires Reaches(false, run, s) && Enabled(false, s, step)
    ensures Reaches(false, run', s') && s' == Apply(false, s, step)
  {
    run', s' := Then(run, s, step), Apply(false, s, step);
  }

  /** A holds the lock, and B is between releasing lk->lk and going to sleep. */
  lemma Window() returns (run: Run, s: State)
    ensures Reaches(false, run, s) && s == State([Holding, SleepBare], NONE, NONE, true, 0)
  {
    run, s := Begin, State([Outside, Outside], NONE, NONE, false, NONE);
    assert Reaches(false, run, s);
    hide Reaches;
    run, s := Extend(run, s, Start(0));
    run, s := Extend(run, s, Move(0));
    run, s := Extend(run, s, Move(0));
    run, s := Extend(run, s, Move(0));
    assert s == State([Holding, Outside], NONE, NONE, true, 0);
    run, s := Extend(run, s, Start(1));
    run, s := Extend(run, s, Move(1));
    run, s := Extend(run, s, Move(1));
    run, s := Extend(run, s, Move(1));
  }

  /** If sleep released lk->lk before it had the table lock, a wakeup could be lost: the lock is free,
      nobody owns it, and a process sleeps on it. */
  lemma ReleasingFirstLosesWakeups() returns (run: Run, s: State)
    ensures Reaches(false, run, s) && s == State([Outside, Asleep], NONE, NONE, false, NONE)
  {
    hide Reaches;
    run, s := Window();
    run, s := Extend(run, s, Finish(0));
    run, s := Extend(run, s, Move(0));
    run, s := Extend(run, s, Move(0));
    run, s := Extend(run, s, Move(0));
    run, s := Extend(run, s, Move(0));
    assert s == State([RelDone, SleepBare], 0, NONE, false, NONE);
    run, s := Extend(run, s, Move(0));
    run, s := Extend(run, s, Move(1));
    run, s := Extend(run, s, Move(1));
  }
}
