/** The process table as proc.c keeps it: loops over the slots that update them in place, each proved
    to be a step of the transition system. */
module Proc {
  import opened ProcTable

  /** Outcome of one scan of wait(). */
  datatype Waited = Reaped(pid: nat) | Failed | Slept

  class PTable {
    var procs: seq<Proc>
    var cpu: seq<int>
    var nextpid: nat
    const init: nat

    ghost function T(): Table
      reads this
    {
      Table(procs, cpu, nextpid, init)
    }

    /** After userinit: init alone, in the first of `nproc` slots. */
    constructor (nproc: nat, ncpu: nat)
      requires nproc > 0
      ensures Booted(T()) && |procs| == nproc && |cpu| == ncpu
    {
      var unused := Proc(Unused, 0, NONE, NoChan, false, 0, 0);
      procs := seq(nproc, i => if i == 0 then unused.(state := Runnable, pid := 1, priority := DEFAULT_PRIORITY) else unused);
      cpu := seq(ncpu, _ => NONE);
      nextpid, init := 2, 0;
    }

    /** wakeup1 */
    method Wakeup1(c: Chan)
      modifies this`procs
      ensures T() == Wake(old(T()), c)
    {
      ghost var t := T();
      var i := 0;
      while i < |procs|
        invariant 0 <= i <= |procs| == |t.procs|
        invariant forall k :: 0 <= k < |procs| ==> procs[k] == if k < i then Woken(t.procs[k], c) else t.procs[k]
      {
        if procs[i].state == Sleeping && procs[i].chan == c {
          procs := procs[i := procs[i].(state := Runnable)];
        }
        i := i + 1;
      }
      assert procs == Wake(t, c).procs;
    }

    /** The locked part of allocproc, called by process `p`: the first unused slot, or NONE. */
    method Allocproc(p: nat) returns (q: int)
      requires IsRunning(T(), p)
      modifies this`procs, this`nextpid
      ensures q == NONE ==> T() == old(T()) && forall i :: 0 <= i < |procs| ==> procs[i].state != Unused
      ensures q != NONE ==>
                && q >= 0 && Enabled(old(T()), AllocProc(p, q)) && T() == Apply(old(T()), AllocProc(p, q))
                && forall i :: 0 <= i < q ==> old(procs)[i].state != Unused
    {
      var i := 0;
      while i < |procs| && procs[i].state != Unused
        invariant 0 <= i <= |procs|
        invariant forall k :: 0 <= k < i ==> procs[k].state != Unused
      {
        i := i + 1;
      }
      if i == |procs| {
        return NONE;
      }
      procs := procs[i := procs[i].(state := Embryo, pid := nextpid, priority := DEFAULT_PRIORITY, maker := p)];
      nextpid := nextpid + 1;
      return i;
    }

    /** exit passes abandoned children to init, and wakes it for those that are zombies. */
    method PassChildren(p: nat)
      modifies this`procs
      ensures T() == PassedOn(old(T()), p, |old(procs)|)
    {
      hide Passed, PassedOn;
      ghost var a := T();
      PassedFirst(a, p);
      var i := 0;
      while i < |procs|
        invariant 0 <= i <= |procs| == |a.procs| && T() == PassedOn(a, p, i)
      {
        PassedNext(a, p, i);
        if procs[i].parent == p {
          procs := procs[i := procs[i].(parent := init)];
          if procs[i].state == Zombie {
            Wakeup1(OnProc(init));
          }
        }
        i := i + 1;
      }
    }

    /** The locked part of exit. */
    method ExitCurrent(p: nat)
      requires Enabled(T(), Exit(p))
      modifies this`procs, this`cpu
      ensures T() == Apply(old(T()), Exit(p))
    {
      hide Passed, PassedOn, Wake, Reparented, ZombieChild;
      Wakeup1(OnProc(procs[p].parent));
      ghost var a := T();
      WakeView(old(T()), OnProc(old(procs)[p].parent));
      PassChildren(p);
      PassedLast(a, p);
      procs := procs[p := procs[p].(state := Zombie)];
      Sched(p);
    }

    /** sched: the CPU of process `p`, which is no longer running, goes back to its scheduler. */
    method Sched(p: nat)
      requires p < |procs| && procs[p].state != Running
      modifies this`cpu
      ensures cpu == LeaveCpu(old(cpu), p)
    {
      ghost var before := cpu;
      var c := 0;
      while c < |cpu|
        invariant 0 <= c <= |cpu| == |before|
        invariant forall k :: 0 <= k < |cpu| ==> cpu[k] == if k < c && before[k] == p then NONE else before[k]
      {
        if cpu[c] == p {
          cpu := cpu[c := NONE];
        }
        c := c + 1;
      }
      assert cpu == LeaveCpu(before, p);
    }

    /** One scan of wait by process `p`: reap the first zombie child, fail, or go to sleep. */
    method WaitOnce(p: nat) returns (r: Waited)
      requires IsRunning(T(), p)
      modifies this`procs, this`cpu
      ensures r.Reaped? ==> exists q: nat ::
                && Enabled(old(T()), Reap(p, q)) && T() == Apply(old(T()), Reap(p, q)) && r.pid == old(procs)[q].pid
                && forall k :: 0 <= k < q && old(procs)[k].parent == p ==> old(procs)[k].state != Zombie
      ensures r.Failed? ==> T() == old(T()) && (!HasChild(T(), p) || procs[p].killed)
                            && forall k :: 0 <= k < |procs| && procs[k].parent == p ==> procs[k].state != Zombie
      ensures r.Slept? ==> Enabled(old(T()), WaitSleep(p)) && T() == Apply(old(T()), WaitSleep(p))
    {
      var havekids := false;
      var i := 0;
      while i < |procs|
        invariant 0 <= i <= |procs| && T() == old(T())
        invariant havekids <==> exists k :: 0 <= k < i && procs[k].parent == p
        invariant forall k :: 0 <= k < i && procs[k].parent == p ==> procs[k].state != Zombie
      {
        if procs[i].parent == p {
          havekids := true;
          if procs[i].state == Zombie {
            var pid := procs[i].pid;
            procs := procs[i := procs[i].(state := Unused, pid := 0, parent := NONE, killed := false)];
            assert T() == Apply(old(T()), Reap(p, i));
            return Reaped(pid);
          }
        }
        i := i + 1;
      }
      if !havekids || procs[p].killed {
        return Failed;
      }
      procs := procs[p := procs[p].(chan := OnProc(p), state := Sleeping)];
      Sched(p);
      return Slept;
    }

    /** kill: mark the first slot with this pid and wake it if it sleeps; -1 if there is none. */
    method KillPid(pid: nat) returns (r: int)
      modifies this`procs
      ensures r == -1 ==> T() == old(T()) && forall k :: 0 <= k < |procs| ==> procs[k].pid != pid
      ensures r != -1 ==> r == 0 && exists q: nat ::
                q < |old(procs)| && old(procs)[q].pid == pid && T() == Apply(old(T()), Kill(q))
    {
      var i := 0;
      while i < |procs|
        invariant 0 <= i <= |procs| && T() == old(T())
        invariant forall k :: 0 <= k < i ==> procs[k].pid != pid
      {
        if procs[i].pid == pid {
          procs := procs[i := procs[i].(killed := true)];
          if procs[i].state == Sleeping {
            procs := procs[i := procs[i].(state := Runnable)];
          }
          assert T() == Apply(old(T()), Kill(i));
          return 0;
        }
        i := i + 1;
      }
      return -1;
    }
  }

  /** exit has met a zombie child of `p` among the first `i` slots. */
  ghost predicate ZombieBefore(a: Table, p: nat, i: int) {
    exists z :: 0 <= z < i && z < |a.procs| && a.procs[z].parent == p && a.procs[z].state == Zombie
  }

  /** Slot `k` after exit's loop has passed the first `i` slots. */
  ghost function Passed(a: Table, p: nat, k: int, i: int): Proc
    requires 0 <= k < |a.procs|
  {
    var q := if k < i && a.procs[k].parent == p then a.procs[k].(parent := a.init) else a.procs[k];
    if ZombieBefore(a, p, i) then Woken(q, OnProc(a.init)) else q
  }

  /** The table after exit's loop has passed the first `i` slots. */
  ghost function PassedOn(a: Table, p: nat, i: nat): (r: Table)
    ensures |r.procs| == |a.procs|
  {
    a.(procs := seq(|a.procs|, k requires 0 <= k < |a.procs| => Passed(a, p, k, i)))
  }

  lemma PassedFirst(a: Table, p: nat)
    ensures PassedOn(a, p, 0) == a
  {
    assert PassedOn(a, p, 0).procs == a.procs;
  }

  lemma ZombieNext(a: Table, p: nat, i: nat)
    requires i < |a.procs|
    ensures ZombieBefore(a, p, i + 1) <==> ZombieBefore(a, p, i) || (a.procs[i].parent == p && a.procs[i].state == Zombie)
  {
    if a.procs[i].parent == p && a.procs[i].state == Zombie {
      assert ZombieBefore(a, p, i + 1);
    }
  }

  /** One turn of exit's loop. */
  lemma PassedNext(a: Table, p: nat, i: nat)
    requires i < |a.procs|
    ensures var t := PassedOn(a, p, i);
            var b := Set(t, i, t.procs[i].(parent := a.init));
            PassedOn(a, p, i + 1)
              == if t.procs[i].parent != p then t else if t.procs[i].state == Zombie then Wake(b, OnProc(a.init)) else b
  {
    hide ZombieBefore;
    ZombieNext(a, p, i);
    var t := PassedOn(a, p, i);
    var b := Set(t, i, t.procs[i].(parent := a.init));
    var r := if t.procs[i].parent != p then t else if t.procs[i].state == Zombie then Wake(b, OnProc(a.init)) else b;
    assert PassedOn(a, p, i + 1).procs == r.procs;
  }

  lemma WakeView(t: Table, c: Chan)
    ensures |Wake(t, c).procs| == |t.procs| && Wake(t, c) == t.(procs := Wake(t, c).procs)
  {
  }

  lemma PassedLast(a: Table, p: nat)
    ensures PassedOn(a, p, |a.procs|) == if ZombieChild(a, p) then Wake(Reparented(a, p), OnProc(a.init)) else Reparented(a, p)
    ensures |Reparented(a, p).procs| == |a.procs|
  {
    var r := if ZombieChild(a, p) then Wake(Reparented(a, p), OnProc(a.init)) else Reparented(a, p);
    assert ZombieBefore(a, p, |a.procs|) <==> ZombieChild(a, p);
    assert PassedOn(a, p, |a.procs|).procs == r.procs;
  }
}
