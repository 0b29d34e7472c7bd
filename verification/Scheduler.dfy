/** The priority scheduler's scan of the process table; a smaller value is a higher priority. */
module Scheduler {
  import opened ProcTable

  predicate CanRun(procs: seq<Proc>, i: int) {
    0 <= i < |procs| && procs[i].state == Runnable
  }

  /** First RUNNABLE slot from `pos` on, or NONE. */
  function FirstFrom(procs: seq<Proc>, pos: nat): (r: int)
    ensures r == NONE || (pos <= r && CanRun(procs, r))
    ensures forall i :: pos <= i < |procs| && (r == NONE || i < r) ==> !CanRun(procs, i)
    decreases |procs| - pos
  {
    if pos >= |procs| then NONE else if CanRun(procs, pos) then pos else FirstFrom(procs, pos + 1)
  }

  /** No RUNNABLE slot has a higher priority than slot `h`. */
  ghost predicate Highest(procs: seq<Proc>, h: int) {
    CanRun(procs, h) && forall i :: CanRun(procs, i) ==> procs[h].priority <= procs[i].priority
  }

  /** The slot a scan from `pos` picks: the one it stopped at if that is of highest priority, else the
      first of highest priority in the whole table. */
  ghost predicate Picks(procs: seq<Proc>, pos: nat, h: int) {
    var f := FirstFrom(procs, pos);
    if f == NONE then h == NONE
    else
      && Highest(procs, h)
      && (Highest(procs, f) ==> h == f)
      && (!Highest(procs, f) ==> forall i :: 0 <= i < h ==> !Highest(procs, i))
  }

  /** One pass of the outer loop body: stop at a RUNNABLE process, then look for a higher priority. */
  method Pick(procs: seq<Proc>, pos: nat) returns (h: int)
    ensures Picks(procs, pos, h)
  {
    var p := pos;
    while p < |procs| && procs[p].state != Runnable
      invariant pos <= p && FirstFrom(procs, p) == FirstFrom(procs, pos)
    {
      p := p + 1;
    }
    if p >= |procs| {
      return NONE;
    }
    h := p;
    var p1 := 0;
    while p1 < |procs|
      invariant 0 <= p1 <= |procs| && CanRun(procs, h)
      invariant procs[h].priority <= procs[p].priority && (procs[h].priority == procs[p].priority ==> h == p)
      invariant forall i :: 0 <= i < p1 && CanRun(procs, i) ==> procs[h].priority <= procs[i].priority
      invariant h != p ==> h < p1 && forall i :: 0 <= i < h && CanRun(procs, i) ==> procs[h].priority < procs[i].priority
    {
      if procs[p1].state == Runnable && procs[h].priority > procs[p1].priority {
        h := p1;
      }
      p1 := p1 + 1;
    }
  }

  /** Two slots picked by the same scan are the same. */
  lemma PickIsUnique(procs: seq<Proc>, pos: nat, h: int, k: int)
    requires Picks(procs, pos, h) && Picks(procs, pos, k)
    ensures h == k
  {
  }

  // ---- One CPU ----

  /** A scan of one CPU: the table it sees and the slot it dispatches, NONE if the scan ran out. */
  datatype Scan = Scan(procs: seq<Proc>, h: int)

  /** Where the next scan starts: after the slot dispatched, or at the start of a new round. */
  function NextPos(h: int): int {
    h + 1
  }

  /** `scans` are successive scans of one CPU from position `pos` on, with any changes in between. */
  ghost predicate Scans(pos: nat, scans: seq<Scan>)
    decreases |scans|
  {
    scans == [] ||
    (Picks(scans[0].procs, pos, scans[0].h) && scans[0].h >= NONE && Scans(NextPos(scans[0].h), scans[1..]))
  }

  /** Number of scans that dispatched a process. */
  function Dispatches(scans: seq<Scan>): nat {
    if scans == [] then 0 else (if scans[0].h == NONE then 0 else 1) + Dispatches(scans[1..])
  }

  /** One of the scans dispatched slot `t`. */
  ghost predicate Chosen(scans: seq<Scan>, t: nat) {
    exists k :: 0 <= k < |scans| && scans[k].h == t
  }

  /** Slot `t` is of highest priority, and from the first such slot up to it all RUNNABLE slots are. */
  ghost predicate Fair(procs: seq<Proc>, t: int) {
    && Highest(procs, t)
    && forall h, c :: Highest(procs, h) && CanRun(procs, c) && h < c < t ==> Highest(procs, c)
  }

  /** How far slot `t` is ahead of position `pos` in a table of `n` slots. */
  function Distance(pos: nat, t: nat, n: nat): int {
    if pos <= t then t - pos else n - pos + t
  }

  /** A scan that does not choose a fair slot `t` ends closer to it, or starts a new round. */
  lemma ScanApproaches(procs: seq<Proc>, pos: nat, t: nat, h: int)
    requires pos <= |procs| && Fair(procs, t) && Picks(procs, pos, h) && h != t
    ensures NONE <= h < |procs|
    ensures Distance(NextPos(h), t, |procs|) + (if h == NONE then 0 else 1) <= Distance(pos, t, |procs|)
  {
  }

  /** While slot `t` of `n` stays fair and is not chosen, each dispatch brings the scan closer to it. */
  lemma {:induction false} Approaches(pos: nat, scans: seq<Scan>, t: nat, n: nat)
    requires Scans(pos, scans) && t < n && pos <= n
    requires forall k :: 0 <= k < |scans| ==> |scans[k].procs| == n && Fair(scans[k].procs, t) && scans[k].h != t
    ensures Dispatches(scans) <= Distance(pos, t, n)
    decreases |scans|
  {
    hide Fair, Picks;
    if scans != [] {
      var s := scans[0];
      ScanApproaches(s.procs, pos, t, s.h);
      Approaches(NextPos(s.h), scans[1..], t, n);
    }
  }

  /** A slot that is fair in every scan is chosen within as many dispatches as there are slots, whatever else changes
      between the scans. */
  lemma FairIsServed(pos: nat, scans: seq<Scan>, t: nat, n: nat)
    requires Scans(pos, scans) && t < n && pos <= n && Dispatches(scans) >= n
    requires forall k :: 0 <= k < |scans| ==> |scans[k].procs| == n && Fair(scans[k].procs, t)
    ensures Chosen(scans, t)
  {
    if forall k :: 0 <= k < |scans| ==> scans[k].h != t {
      Approaches(pos, scans, t, n);
    }
  }

  ghost predicate EqualPriorities(procs: seq<Proc>) {
    forall i, j :: CanRun(procs, i) && CanRun(procs, j) ==> procs[i].priority == procs[j].priority
  }

  /** With equal priorities a process that stays RUNNABLE is chosen within as many dispatches as there are slots. */
  lemma RoundRobin(pos: nat, scans: seq<Scan>, t: nat, n: nat)
    requires Scans(pos, scans) && t < n && pos <= n && Dispatches(scans) >= n
    requires forall k :: 0 <= k < |scans| ==>
               |scans[k].procs| == n && CanRun(scans[k].procs, t) && EqualPriorities(scans[k].procs)
    ensures Chosen(scans, t)
  {
    FairIsServed(pos, scans, t, n);
  }

  // ---- A table that stays the same ----

  ghost predicate Unchanged(procs: seq<Proc>, scans: seq<Scan>) {
    forall k :: 0 <= k < |scans| ==> scans[k].procs == procs
  }

  /** Slot `t` is chosen within as many dispatches as there are slots, from every position. */
  ghost predicate Served(procs: seq<Proc>, t: nat) {
    forall pos: nat, scans: seq<Scan> | pos <= |procs| && Scans(pos, scans) && Unchanged(procs, scans) && Dispatches(scans) >= |procs| ::
      Chosen(scans, t)
  }

  /** There is a slot of highest priority with none before it. */
  lemma {:induction false} FirstHighest(procs: seq<Proc>, m: nat) returns (h: nat)
    requires m <= |procs| && exists i :: 0 <= i < m && CanRun(procs, i)
    ensures h < m && CanRun(procs, h)
    ensures forall i :: 0 <= i < m && CanRun(procs, i) ==> procs[h].priority <= procs[i].priority
    ensures forall i :: 0 <= i < h && CanRun(procs, i) ==> procs[h].priority < procs[i].priority
  {
    if exists i :: 0 <= i < m - 1 && CanRun(procs, i) {
      h := FirstHighest(procs, m - 1);
      if CanRun(procs, m - 1) && procs[m - 1].priority < procs[h].priority {
        h := m - 1;
      }
    } else {
      h := m - 1;
    }
  }

  /** Every scan picks something, or runs out. */
  lemma SomePick(procs: seq<Proc>, pos: nat) returns (h: int)
    requires pos <= |procs|
    ensures Picks(procs, pos, h) && NONE <= h < |procs|
    ensures h == NONE <==> FirstFrom(procs, pos) == NONE
  {
    var f := FirstFrom(procs, pos);
    if f == NONE || Highest(procs, f) {
      h := f;
    } else {
      h := FirstHighest(procs, |procs|);
    }
  }

  /** From every position a CPU dispatches as often as one likes, if some slot is RUNNABLE. */
  lemma {:induction false} GoesOn(procs: seq<Proc>, pos: nat, t: nat, n: nat) returns (scans: seq<Scan>)
    requires pos <= |procs| && CanRun(procs, t)
    ensures Scans(pos, scans) && Unchanged(procs, scans) && Dispatches(scans) == n
    decreases n, pos
  {
    hide Picks;
    if n == 0 {
      scans := [];
    } else {
      var h := SomePick(procs, pos);
      var rest := GoesOn(procs, NextPos(h), t, if h == NONE then n else n - 1);
      scans := [Scan(procs, h)] + rest;
      assert scans[1..] == rest;
    }
  }

  /** A RUNNABLE slot `c` of lower priority after slot `h` of the highest sends every scan that starts up to it back:
      no slot from `c` on is ever chosen. */
  lemma {:induction false} StaysBelow(procs: seq<Proc>, pos: nat, scans: seq<Scan>, h: nat, c: nat)
    requires Highest(procs, h) && CanRun(procs, c) && !Highest(procs, c) && h < c && pos <= c
    requires Scans(pos, scans) && Unchanged(procs, scans)
    ensures forall k :: 0 <= k < |scans| ==> 0 <= scans[k].h < c
    decreases |scans|
  {
    if scans != [] {
      var s := scans[0];
      assert 0 <= s.h < c;
      StaysBelow(procs, NextPos(s.h), scans[1..], h, c);
      forall k | 0 <= k < |scans| ensures 0 <= scans[k].h < c {
        assert k > 0 ==> scans[k] == scans[1..][k - 1];
      }
    }
  }

  lemma {:induction false} OnlyHighestChosen(procs: seq<Proc>, pos: nat, scans: seq<Scan>, k: nat)
    requires Scans(pos, scans) && Unchanged(procs, scans) && k < |scans| && scans[k].h != NONE
    ensures Highest(procs, scans[k].h)
    decreases |scans|
  {
    if k > 0 {
      assert scans[k] == scans[1..][k - 1];
      OnlyHighestChosen(procs, NextPos(scans[0].h), scans[1..], k - 1);
    }
  }

  /** Exactly the fair slots are served.  Every other RUNNABLE slot is passed over for ever from some position. */
  lemma ServedExactly(procs: seq<Proc>, t: nat)
    requires CanRun(procs, t)
    ensures Served(procs, t) <==> Fair(procs, t)
  {
    hide Scans, Dispatches;
    if Fair(procs, t) {
      forall pos: nat, scans: seq<Scan> | pos <= |procs| && Scans(pos, scans) && Unchanged(procs, scans) && Dispatches(scans) >= |procs|
        ensures Chosen(scans, t)
      {
        FairIsServed(pos, scans, t, |procs|);
      }
    } else {
      var pos, scans := Starves(procs, t, |procs|);
    }
  }

  /** From some position a RUNNABLE slot that is not fair is not chosen in any number of dispatches. */
  lemma Starves(procs: seq<Proc>, t: nat, n: nat) returns (pos: nat, scans: seq<Scan>)
    requires CanRun(procs, t) && !Fair(procs, t)
    ensures pos <= |procs| && Scans(pos, scans) && Unchanged(procs, scans) && Dispatches(scans) == n
    ensures forall k :: 0 <= k < |scans| ==> scans[k].h != t
  {
    hide Scans, Dispatches;
    if Highest(procs, t) {
      var h, c :| Highest(procs, h) && CanRun(procs, c) && h < c < t && !Highest(procs, c);
      pos := c;
      scans := GoesOn(procs, pos, t, n);
      StaysBelow(procs, pos, scans, h, c);
    } else {
      pos := 0;
      scans := GoesOn(procs, pos, t, n);
      forall k | 0 <= k < |scans| ensures scans[k].h != t {
        if scans[k].h != NONE {
          OnlyHighestChosen(procs, pos, scans, k);
        }
      }
    }
  }

  /** With mixed priorities a RUNNABLE process of the highest priority can wait for ever: a process of
      lower priority between two of the highest sends every scan back to the first. */
  lemma {:induction false} MixedPrioritiesStarve(a: Proc, c: Proc, b: Proc, n: nat) returns (scans: seq<Scan>)
    requires a.state == Runnable && b.state == Runnable && c.state == Runnable
    requires a.priority == b.priority < c.priority
    ensures Scans(1, scans) && |scans| == n && Dispatches(scans) == n
    ensures forall k :: 0 <= k < n ==> scans[k].procs == [a, c, b] && Highest(scans[k].procs, 2) && scans[k].h == 0
  {
    if n == 0 {
      scans := [];
    } else {
      var rest := MixedPrioritiesStarve(a, c, b, n - 1);
      var procs := [a, c, b];
      assert CanRun(procs, 0) && CanRun(procs, 1) && CanRun(procs, 2);
      assert FirstFrom(procs, 1) == 1 && !Highest(procs, 1) && Highest(procs, 0);
      scans := [Scan(procs, 0)] + rest;
      assert scans[1..] == rest;
    }
  }
}
