/** A pipe: a ring buffer with wrapping 32-bit counters, and the processes asleep on its two ends.

    Every step is one section under the pipe's lock, from acquiring it or waking up to releasing it or
    going to sleep.  Any interleaving of readers, writers, closes and kills is a run of steps. */
module PipeBuffer {
  const PIPESIZE := 512
  const WRAP := 0x1_0000_0000

  type Ring = s: seq<int> | |s| == PIPESIZE witness seq(PIPESIZE, _ => 0)

  /** Outcome of a section: the call returns, fails, or the process sleeps and will call again. */
  datatype Outcome = Returned | Failed | Sleeps

  datatype State = State(
    data: Ring,
    nread: nat,
    nwrite: nat,
    readopen: bool,
    writeopen: bool,
    freed: bool,
    written: seq<int>,     // all bytes ever written
    got: seq<int>,         // all bytes ever read
    readers: set<nat>,     // asleep on &nread
    writers: set<nat>      // asleep on &nwrite
  )

  datatype Step =
    | Write(me: nat, addr: seq<int>, i: nat, isKilled: bool)   // pipewrite, which has `i` bytes of `addr` in the pipe
    | Read(me: nat, n: nat, isKilled: bool)
    | Close(writable: bool)
    | Rouse(p: nat)                                            // kill wakes a sleeper

  // ---- The sections ----

  /** p->data[p->nwrite++ % PIPESIZE] = b */
  function Put(s: State, b: int): State {
    s.(data := s.data[s.nwrite % PIPESIZE := b], nwrite := (s.nwrite + 1) % WRAP, written := s.written + [b])
  }

  /** p->data[p->nread++ % PIPESIZE] */
  function Take(s: State): State {
    s.(nread := (s.nread + 1) % WRAP, got := s.got + [s.data[s.nread % PIPESIZE]])
  }

  /** pipewrite by process `me` of `addr` from index `i` on, until it returns or sleeps at an index. */
  function WriteLoop(s: State, me: nat, addr: seq<int>, i: nat, isKilled: bool): (State, Outcome, nat)
    requires i <= |addr|
    decreases |addr| - i
  {
    if i == |addr| then
      (s.(readers := {}), Returned, i)
    else if s.nwrite != (s.nread + PIPESIZE) % WRAP then
      WriteLoop(Put(s, addr[i]), me, addr, i + 1, isKilled)
    else if !s.readopen || isKilled then
      (s, Failed, i)
    else
      (s.(readers := {}, writers := s.writers + {me}), Sleeps, i)
  }

  /** The copy loop of piperead. */
  function ReadLoop(s: State, n: nat): State
    decreases n
  {
    if n == 0 || s.nread == s.nwrite then s else ReadLoop(Take(s), n - 1)
  }

  function ReadSection(s: State, me: nat, n: nat, isKilled: bool): (State, Outcome) {
    if s.nread == s.nwrite && s.writeopen then
      if isKilled then (s, Failed) else (s.(readers := s.readers + {me}), Sleeps)
    else
      (ReadLoop(s, n).(writers := {}), Returned)
  }

  function CloseEnd(s: State, writable: bool): State {
    var t := if writable then s.(writeopen := false, readers := {}) else s.(readopen := false, writers := {});
    t.(freed := !t.readopen && !t.writeopen)
  }

  /** A caller has its end of the pipe open and is awake.  The last reference to an end is closed once, by a process
      that is not in the pipe. */
  ghost predicate Enabled(s: State, step: Step) {
    match step
    case Write(me, addr, i, _) => s.writeopen && i <= |addr| && me !in s.readers + s.writers
    case Read(me, _, _) => s.readopen && me !in s.readers + s.writers
    case Close(writable) => if writable then s.writeopen && s.writers == {} else s.readopen && s.readers == {}
    case Rouse(p) => p in s.readers + s.writers
  }

  ghost function Apply(s: State, step: Step): State
    requires Enabled(s, step)
  {
    match step
    case Write(me, addr, i, isKilled) => WriteLoop(s, me, addr, i, isKilled).0
    case Read(me, n, isKilled) => ReadSection(s, me, n, isKilled).0
    case Close(writable) => CloseEnd(s, writable)
    case Rouse(p) => s.(readers := s.readers - {p}, writers := s.writers - {p})
  }

  ghost predicate Initial(s: State) {
    && s.nread == s.nwrite == 0 && s.readopen && s.writeopen && !s.freed
    && s.written == s.got == [] && s.readers == s.writers == {}
  }

  datatype Run = Begin | Then(before: Run, r: State, step: Step)

  ghost predicate Reaches(run: Run, s: State) {
    match run
    case Begin => Initial(s)
    case Then(before, r, step) => Reaches(before, r) && Enabled(r, step) && s == Apply(r, step)
  }

  // ---- Counters ----

  /** The ring index of the k-th byte does not depend on the counters wrapping around. */
  lemma WrapKeepsIndex(k: nat)
    ensures k % WRAP % PIPESIZE == k % PIPESIZE
  {
    var q := k / WRAP;
    assert k == q * WRAP + k % WRAP;
    assert WRAP == PIPESIZE * 0x80_0000;
    assert k % WRAP == k + PIPESIZE * (-0x80_0000 * q);
    ModShift(k, -0x80_0000 * q);
  }

  lemma ModShift(k: int, m: int)
    ensures (k + PIPESIZE * m) % PIPESIZE == k % PIPESIZE
  {
  }

  /** Counters that differ by at most PIPESIZE compare like the counts they stand for. */
  lemma CountersCompare(w: nat, r: nat)
    requires r <= w <= r + PIPESIZE
    ensures w % WRAP == (r % WRAP + PIPESIZE) % WRAP <==> w == r + PIPESIZE
    ensures w % WRAP == r % WRAP <==> w == r
    ensures (w % WRAP - r % WRAP) % WRAP == w - r
  {
  }

  lemma NextCount(k: nat)
    ensures (k + 1) % WRAP == (k % WRAP + 1) % WRAP
  {
  }

  /** Bytes less than PIPESIZE apart have different ring indices. */
  lemma OtherIndex(r: nat, w: nat)
    requires w < r + PIPESIZE
    ensures forall k :: r <= k < w ==> k % PIPESIZE != w % PIPESIZE
  {
    forall k | r <= k < w ensures k % PIPESIZE != w % PIPESIZE {
      assert 0 < w - k < PIPESIZE;
    }
  }

  // ---- The bytes in the pipe ----

  /** The ring holds what has been written and not read. */
  ghost predicate Contents(s: State) {
    && s.got <= s.written && |s.written| <= |s.got| + PIPESIZE
    && s.nwrite == |s.written| % WRAP && s.nread == |s.got| % WRAP
    && forall k :: |s.got| <= k < |s.written| ==> s.data[k % PIPESIZE] == s.written[k]
  }

  /** Number of bytes that can be written, and read. */
  ghost function Space(s: State): int { |s.got| + PIPESIZE - |s.written| }
  ghost function Held(s: State): int { |s.written| - |s.got| }

  /** What the counters of the code tell. */
  lemma CountersTell(s: State)
    requires Contents(s)
    ensures s.got <= s.written && 0 <= Held(s) <= PIPESIZE
    ensures s.nwrite == (s.nread + PIPESIZE) % WRAP <==> Space(s) == 0
    ensures s.nread == s.nwrite <==> Held(s) == 0
    ensures (s.nwrite - s.nread) % WRAP == Held(s)
  {
    CountersCompare(|s.written|, |s.got|);
  }

  lemma PutContents(s: State, b: int)
    requires Contents(s) && Space(s) > 0
    ensures Contents(Put(s, b))
  {
    WrapKeepsIndex(|s.written|);
    NextCount(|s.written|);
    OtherIndex(|s.got|, |s.written|);
  }

  lemma TakeContents(s: State)
    requires Contents(s) && Held(s) > 0
    ensures Contents(Take(s)) && Take(s).got == s.written[..|s.got| + 1]
  {
    WrapKeepsIndex(|s.got|);
    NextCount(|s.got|);
  }

  /** The section of a write ends where it starts: with nothing to write, or with a full pipe. */
  lemma WriteEnds(s: State, me: nat, addr: seq<int>, i: nat, isKilled: bool)
    requires Contents(s) && i <= |addr| && (i == |addr| || Space(s) == 0)
    ensures var (t, o, j) := WriteLoop(s, me, addr, i, isKilled);
            && Contents(t) && j == i && t == s.(readers := t.readers, writers := t.writers)
            && (if i == |addr| then o == Returned && t.readers == {} && t.writers == s.writers
                else if !s.readopen || isKilled then o == Failed && t.readers == s.readers && t.writers == s.writers
                else o == Sleeps && t.readers == {} && t.writers == s.writers + {me})
  {
    hide Contents;
    CountersTell(s);
    SameContents(s, s.(readers := {}));
    SameContents(s, s.(readers := {}, writers := s.writers + {me}));
  }

  lemma WriteGoesOn(s: State, me: nat, addr: seq<int>, i: nat, isKilled: bool)
    requires Contents(s) && i < |addr| && Space(s) > 0
    ensures WriteLoop(s, me, addr, i, isKilled) == WriteLoop(Put(s, addr[i]), me, addr, i + 1, isKilled)
  {
    hide Contents;
    CountersTell(s);
  }

  /** A write puts in as many of its bytes as there is space for, and what is left decides its outcome. */
  lemma {:induction false} WriteSection(s: State, me: nat, addr: seq<int>, i: nat, isKilled: bool)
    requires Contents(s) && i <= |addr|
    ensures var (t, o, j) := WriteLoop(s, me, addr, i, isKilled);
            && Contents(t) && i <= j <= |addr| && t.got == s.got && t.written == s.written + addr[i..j]
            && t.readopen == s.readopen && t.writeopen == s.writeopen && t.freed == s.freed
            && j - i == (if |addr| - i <= Space(s) then |addr| - i else Space(s))
            && (if |addr| - i <= Space(s) then o == Returned && t.readers == {} && t.writers == s.writers
                else if !s.readopen || isKilled then o == Failed && t.readers == s.readers && t.writers == s.writers
                else o == Sleeps && t.readers == {} && t.writers == s.writers + {me})
    decreases |addr| - i
  {
    hide Contents, WriteLoop;
    CountersTell(s);
    if i < |addr| && Space(s) > 0 {
      PutContents(s, addr[i]);
      WriteGoesOn(s, me, addr, i, isKilled);
      WriteSection(Put(s, addr[i]), me, addr, i + 1, isKilled);
      var j := WriteLoop(s, me, addr, i, isKilled).2;
      assert [addr[i]] + addr[i + 1..j] == addr[i..j];
    } else {
      WriteEnds(s, me, addr, i, isKilled);
      assert addr[i..i] == [];
    }
  }

  /** A read takes the bytes that were written next, as many as there are. */
  lemma {:induction false} ReadsNext(s: State, n: nat)
    requires Contents(s)
    ensures var t := ReadLoop(s, n);
            && Contents(t) && t == s.(nread := t.nread, got := t.got)
            && t.got == s.written[..|s.got| + if n <= Held(s) then n else Held(s)]
    decreases n
  {
    hide Contents;
    CountersTell(s);
    if n > 0 && Held(s) > 0 {
      TakeContents(s);
      ReadsNext(Take(s), n - 1);
    }
  }

  // ---- Who sleeps ----

  /** Sleepers have both ends open, and writers sleep on a full pipe only.  The pipe is freed with its second end. */
  ghost predicate EndsInv(s: State) {
    && (s.freed <==> !s.readopen && !s.writeopen)
    && (s.readers != {} ==> s.readopen && s.writeopen)
    && (s.writers != {} ==> s.readopen && s.writeopen && Space(s) == 0)
  }

  ghost predicate Inv(s: State) { Contents(s) && EndsInv(s) }

  /** Readers sleep on an empty pipe only. */
  ghost predicate ReadersWait(s: State) {
    s.readers != {} ==> Held(s) == 0
  }

  /** A killed writer with more bytes than the pipe takes fills it and leaves without waking the readers. */
  ghost predicate Strands(s: State, step: Step) {
    step.Write? && step.isKilled && s.readers != {} && |step.addr| - step.i > PIPESIZE
  }

  lemma StepInv(s: State, step: Step)
    requires Inv(s) && Enabled(s, step)
    ensures Inv(Apply(s, step))
  {
    hide Contents, WriteLoop, ReadLoop;
    match step
    case Write(me, addr, i, isKilled) => WriteSection(s, me, addr, i, isKilled);
    case Read(me, n, isKilled) => ReadInv(s, me, n, isKilled);
    case Close(writable) => SameContents(s, CloseEnd(s, writable));
    case Rouse(p) => SameContents(s, Apply(s, step));
  }

  lemma SameContents(s: State, t: State)
    requires Contents(s) && t == s.(readopen := t.readopen, writeopen := t.writeopen, freed := t.freed,
                                    readers := t.readers, writers := t.writers)
    ensures Contents(t)
  {
  }

  lemma ReadInv(s: State, me: nat, n: nat, isKilled: bool)
    requires Inv(s) && Enabled(s, Read(me, n, isKilled))
    ensures Inv(ReadSection(s, me, n, isKilled).0)
  {
    hide ReadLoop, Contents;
    CountersTell(s);
    ReadsNext(s, n);
    SameContents(s, s.(readers := s.readers + {me}));
    SameContents(ReadLoop(s, n), ReadLoop(s, n).(writers := {}));
  }

  /** Exactly when a step leaves readers asleep on a pipe with bytes in it. */
  lemma StrandsExactly(s: State, step: Step)
    requires Inv(s) && ReadersWait(s) && Enabled(s, step)
    ensures ReadersWait(Apply(s, step)) <==> !Strands(s, step)
  {
    hide WriteLoop, ReadLoop, Contents;
    CountersTell(s);
    match step
    case Write(me, addr, i, isKilled) => WriteSection(s, me, addr, i, isKilled);
    case Read(me, n, isKilled) => ReadsNext(s, n);
    case _ =>
  }

  // ---- Every run ----

  lemma {:induction false} ReachableInv(run: Run, s: State)
    requires Reaches(run, s)
    ensures Inv(s)
  {
    match run
    case Begin =>
    case Then(before, r, step) =>
      ReachableInv(before, r);
      StepInv(r, step);
  }

  /** Bytes come out in the order they went in, without gaps, in every interleaving; the counters differ by
      the number of bytes in the pipe even when they have wrapped around, and the next read gets exactly those. */
  lemma BytesInOrder(run: Run, s: State)
    requires Reaches(run, s)
    ensures s.got <= s.written
    ensures (s.nwrite - s.nread) % WRAP == |s.written| - |s.got| <= PIPESIZE
    ensures ReadLoop(s, PIPESIZE).got == s.written
  {
    hide Reaches, Contents, ReadLoop;
    ReachableInv(run, s);
    CountersTell(s);
    ReadsNext(s, PIPESIZE);
  }

  /** A step of the run strands readers. */
  ghost predicate SomeStrands(run: Run) {
    run.Then? && (SomeStrands(run.before) || Strands(run.r, run.step))
  }

  /** In every state of the run, readers sleep on an empty pipe only. */
  ghost predicate AlwaysWait(run: Run, s: State) {
    ReadersWait(s) && (run.Then? ==> AlwaysWait(run.before, run.r))
  }

  /** Readers are never asleep on bytes throughout a run, exactly when none of its steps is a killed writer's with more
      than PIPESIZE bytes to go while readers sleep. */
  lemma {:induction false} ReadersWaitExactly(run: Run, s: State)
    requires Reaches(run, s)
    ensures AlwaysWait(run, s) <==> !SomeStrands(run)
  {
    match run
    case Begin =>
    case Then(before, r, step) =>
      ReachableInv(before, r);
      ReadersWaitExactly(before, r);
      if AlwaysWait(before, r) {
        StrandsExactly(r, step);
      }
  }

  /** In every interleaving writers sleep on a full pipe that somebody can read; unless a killed writer has stranded
      readers, these sleep on an empty pipe that somebody can write, and the two are never both asleep. */
  lemma NeverBothAsleep(run: Run, s: State)
    requires Reaches(run, s)
    ensures s.writers != {} ==> |s.written| == |s.got| + PIPESIZE && s.readopen
    ensures s.readers != {} ==> s.writeopen
    ensures !SomeStrands(run) ==> (s.readers == {} || s.writers == {}) && (s.readers != {} ==> s.got == s.written)
  {
    ReachableInv(run, s);
    ReadersWaitExactly(run, s);
  }

  /** The pipe is freed exactly when both ends are closed, and then nobody sleeps on it and no section can run. */
  lemma FreedIsLeftAlone(run: Run, s: State)
    requires Reaches(run, s)
    ensures s.freed <==> !s.readopen && !s.writeopen
    ensures s.freed ==> s.readers == s.writers == {} && forall step :: !Enabled(s, step)
  {
    ReachableInv(run, s);
  }

  /** A killed writer leaves without waking the readers: one sleeps although the pipe is full. */
  lemma KilledWriterStrandsReader(s0: State) returns (run: Run, s: State)
    requires Initial(s0)
    ensures Reaches(run, s) && s.readers == {0} && |s.written| == |s.got| + PIPESIZE && s.writeopen
  {
    hide WriteLoop;
    var r := Apply(s0, Read(0, 1, false));
    assert Reaches(Then(Begin, s0, Read(0, 1, false)), r);
    var step := Write(1, seq(PIPESIZE + 1, _ => 0), 0, true);
    run, s := Then(Then(Begin, s0, Read(0, 1, false)), r, step), Apply(r, step);
    WriteSection(r, 1, step.addr, 0, true);
  }

  // ---- The pipe in memory ----

  class Pipe {
    const data: array<int>
    var nread: nat
    var nwrite: nat
    var readopen: bool
    var writeopen: bool
    ghost var freed: bool
    ghost var written: seq<int>
    ghost var got: seq<int>
    ghost var readers: set<nat>
    ghost var writers: set<nat>

    ghost function Now(): State
      reads this, data
      requires data.Length == PIPESIZE
    {
      State(data[..], nread, nwrite, readopen, writeopen, freed, written, got, readers, writers)
    }

    ghost predicate Valid()
      reads this, data
    {
      data.Length == PIPESIZE && Inv(Now())
    }

    constructor ()
      ensures Valid() && fresh(data) && Initial(Now())
    {
      data := new int[PIPESIZE];
      nread, nwrite, readopen, writeopen := 0, 0, true, true;
      written, got, readers, writers, freed := [], [], {}, {}, false;
    }

    /** One section of pipewrite, of `addr` from index `i` on, until it returns or sleeps at index `j`. */
    method Write(me: nat, addr: seq<int>, i: nat, isKilled: bool) returns (o: Outcome, j: nat)
      requires Valid() && Enabled(Now(), Step.Write(me, addr, i, isKilled))
      modifies this, data
      ensures Valid() && (Now(), o, j) == WriteLoop(old(Now()), me, addr, i, isKilled)
      ensures i <= j <= |addr| && written == old(written) + addr[i..j] && got == old(got)
      ensures o == Returned ==> j == |addr| && readers == {} && writers == old(writers)
      ensures o != Returned ==> |written| == |got| + PIPESIZE
      ensures o == Sleeps ==> !isKilled && readopen && readers == {} && writers == old(writers) + {me}
      ensures o == Failed ==> (!readopen || isKilled) && readers == old(readers) && writers == old(writers)
      ensures old(ReadersWait(Now())) ==>
                (ReadersWait(Now()) <==> !(isKilled && old(readers) != {} && |addr| - i > PIPESIZE))
    {
      hide Inv, Strands, ReadersWait;
      ghost var s := Now();
      WriteFacts(s, me, addr, i, isKilled);
      j := i;
      while j < |addr|
        invariant i <= j <= |addr|
        invariant WriteLoop(Now(), me, addr, j, isKilled) == WriteLoop(s, me, addr, i, isKilled)
      {
        if nwrite == (nread + PIPESIZE) % WRAP {
          if !readopen || isKilled {
            return Failed, j;
          }
          readers := {};                    // wakeup(&p->nread)
          writers := writers + {me};        // sleep(&p->nwrite, &p->lock)
          return Sleeps, j;
        }
        ghost var t := Now();
        data[nwrite % PIPESIZE] := addr[j];
        nwrite := (nwrite + 1) % WRAP;
        written := written + [addr[j]];
        assert Now() == Put(t, addr[j]);
        j := j + 1;
      }
      readers := {};                        // wakeup(&p->nread)
      return Returned, j;
    }

    /** One section of piperead, of at most `n` bytes. */
    method Read(me: nat, n: nat, isKilled: bool) returns (o: Outcome, dst: seq<int>)
      requires Valid() && Enabled(Now(), Step.Read(me, n, isKilled))
      modifies this
      ensures Valid() && (Now(), o) == ReadSection(old(Now()), me, n, isKilled)
      ensures got == old(got) + dst && |dst| <= n && written == old(written)
      ensures o == Returned ==> writers == {} && readers == old(readers)
                                && (|dst| == n || |got| == |written|) && (|dst| == 0 < n ==> !writeopen)
      ensures o == Sleeps ==> dst == [] && |got| == |written| && writeopen && readers == old(readers) + {me} && writers == old(writers)
      ensures o == Failed ==> isKilled && dst == [] && readers == old(readers) && writers == old(writers)
    {
      hide Inv;
      ghost var s := Now();
      ReadFacts(s, me, n, isKilled);
      dst := [];
      if nread == nwrite && writeopen {
        if isKilled {
          return Failed, [];
        }
        readers := readers + {me};          // sleep(&p->nread, &p->lock)
        return Sleeps, [];
      }
      var i := 0;
      while i < n
        invariant 0 <= i <= n && got == s.got + dst && writers == s.writers
        invariant ReadLoop(Now(), n - i) == ReadLoop(s, n)
      {
        if nread == nwrite {
          break;
        }
        ghost var t := Now();
        var b := data[nread % PIPESIZE];
        nread := (nread + 1) % WRAP;
        got := got + [b];
        dst := dst + [b];
        assert Now() == Take(t);
        i := i + 1;
      }
      writers := {};                        // wakeup(&p->nwrite)
      return Returned, dst;
    }

    /** pipeclose of one end; true if the pipe is freed. */
    method Close(writable: bool) returns (free: bool)
      requires Valid() && Enabled(Now(), Step.Close(writable))
      modifies this`readopen, this`writeopen, this`readers, this`writers, this`freed
      ensures Valid() && Now() == CloseEnd(old(Now()), writable)
      ensures free <==> freed
      ensures free ==> readers == writers == {} && (forall step :: !Enabled(Now(), step))
    {
      StepInv(Now(), Step.Close(writable));
      if writable {
        writeopen := false;
        readers := {};
      } else {
        readopen := false;
        writers := {};
      }
      free := !readopen && !writeopen;
      freed := free;
    }
  }

  lemma WriteFacts(s: State, me: nat, addr: seq<int>, i: nat, isKilled: bool)
    requires Inv(s) && Enabled(s, Write(me, addr, i, isKilled))
    ensures var (t, o, j) := WriteLoop(s, me, addr, i, isKilled);
            && Inv(t) && i <= j <= |addr| && t.written == s.written + addr[i..j] && t.got == s.got
            && (o == Returned ==> j == |addr| && t.readers == {} && t.writers == s.writers)
            && (o != Returned ==> |t.written| == |t.got| + PIPESIZE)
            && (o == Sleeps ==> !isKilled && t.readopen && t.readers == {} && t.writers == s.writers + {me})
            && (o == Failed ==> (!t.readopen || isKilled) && t.readers == s.readers && t.writers == s.writers)
            && (ReadersWait(s) ==> (ReadersWait(t) <==> !(isKilled && s.readers != {} && |addr| - i > PIPESIZE)))
  {
    hide WriteLoop, Contents;
    WriteSection(s, me, addr, i, isKilled);
    if ReadersWait(s) {
      StrandsExactly(s, Write(me, addr, i, isKilled));
    }
  }

  lemma ReadFacts(s: State, me: nat, n: nat, isKilled: bool)
    requires Inv(s) && Enabled(s, Read(me, n, isKilled))
    ensures var (t, o) := ReadSection(s, me, n, isKilled);
            && Inv(t) && t.written == s.written && t.writeopen == s.writeopen && |s.got| <= |t.got| <= |s.got| + n
            && (o == Returned ==> t.readers == s.readers && (|t.got| == |s.got| + n || |t.got| == |t.written|)
                                  && (|t.got| == |s.got| < |s.got| + n ==> !t.writeopen))
            && (o != Returned ==> t.got == s.got && |t.got| == |t.written|)
  {
    hide ReadLoop, Contents;
    CountersTell(s);
    ReadInv(s, me, n, isKilled);
    ReadsNext(s, n);
  }
}
