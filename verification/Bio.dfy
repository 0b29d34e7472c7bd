/** The buffer cache's code: a doubly linked list of buffers, searched and spliced in place.

    Buffers are 0 to NBUF - 1 and HEAD is the list's head.  Each method is one section of the transition system of
    module BufferCache. */
module Bio {
  import opened BufferCache

  const HEAD := NBUF

  /** How far down the list a node is. */
  function Place(pos: seq<nat>, x: nat): nat { if x < |pos| then pos[x] else 0 }

  /** `next` and `prev` undo each other. */
  ghost predicate Doubly(next: seq<nat>, prev: seq<nat>) {
    && |next| == |prev| == NBUF + 1
    && (forall x :: 0 <= x <= NBUF ==> next[x] <= NBUF && prev[next[x]] == x)
    && (forall x :: 0 <= x <= NBUF ==> prev[x] <= NBUF && next[prev[x]] == x)
  }

  ghost predicate Steps(next: seq<nat>, pos: seq<nat>) {
    && |next| == NBUF + 1 && |pos| == NBUF
    && (forall x :: 0 <= x <= NBUF ==> Place(pos, next[x]) == if Place(pos, x) == NBUF then 0 else Place(pos, x) + 1)
  }

  /** The links run through all buffers, in the order of `pos`, and back to the head. */
  ghost predicate Linked(next: seq<nat>, prev: seq<nat>, pos: seq<nat>) {
    Doubly(next, prev) && Steps(next, pos)
  }

  ghost predicate Places(pos: seq<nat>) {
    && |pos| == NBUF && (forall i :: 0 <= i < NBUF ==> 1 <= pos[i] <= NBUF)
    && (forall i, j :: 0 <= i < NBUF && 0 <= j < NBUF && i != j ==> pos[i] != pos[j])
  }

  lemma FrontOfList(next: seq<nat>, prev: seq<nat>, pos: seq<nat>)
    requires Linked(next, prev, pos) && Places(pos)
    ensures next[HEAD] < NBUF && pos[next[HEAD]] == 1
    ensures prev[HEAD] < NBUF && pos[prev[HEAD]] == NBUF
  {
    assert next[prev[HEAD]] == HEAD;
  }

  function SplicedNext(next: seq<nat>, prev: seq<nat>, b: nat): seq<nat>
    requires |next| == |prev| == NBUF + 1 && b < NBUF && prev[b] <= NBUF
  {
    var n1 := next[prev[b] := next[b]];
    n1[b := n1[HEAD]][HEAD := b]
  }

  function SplicedPrev(next: seq<nat>, prev: seq<nat>, b: nat): seq<nat>
    requires |next| == |prev| == NBUF + 1 && b < NBUF && prev[b] <= NBUF && next[b] <= NBUF && next[HEAD] <= NBUF
  {
    var n1 := next[prev[b] := next[b]];
    prev[next[b] := prev[b]][b := HEAD][n1[HEAD] := b]
  }

  lemma SpliceDoubly(next: seq<nat>, prev: seq<nat>, b: nat)
    requires Doubly(next, prev) && b < NBUF && next[b] != b
    ensures Doubly(SplicedNext(next, prev, b), SplicedPrev(next, prev, b))
  {
  }

  lemma SpliceSteps(next: seq<nat>, prev: seq<nat>, pos: seq<nat>, b: nat)
    requires Linked(next, prev, pos) && Places(pos) && b < NBUF
    ensures Steps(SplicedNext(next, prev, b), ToFront(pos, b))
  {
    FrontOfList(next, prev, pos);
  }

  /** brelse's splice moves buffer `b` to the front and keeps the order of the others. */
  lemma SpliceLinked(next: seq<nat>, prev: seq<nat>, pos: seq<nat>, b: nat)
    requires Linked(next, prev, pos) && Places(pos) && b < NBUF
    ensures Linked(SplicedNext(next, prev, b), SplicedPrev(next, prev, b), ToFront(pos, b))
  {
    hide Doubly, Steps, ToFront;
    Moves(next, prev, pos, b);
    SpliceDoubly(next, prev, b);
    SpliceSteps(next, prev, pos, b);
  }

  lemma Moves(next: seq<nat>, prev: seq<nat>, pos: seq<nat>, b: nat)
    requires Linked(next, prev, pos) && Places(pos) && b < NBUF
    ensures next[b] != b && next[b] <= NBUF && prev[b] <= NBUF && next[HEAD] <= NBUF
  {
  }

  /** What the section that takes a handle sees of the invariant. */
  lemma OrderPlaces(s: Cache)
    requires Inv(s)
    ensures Places(s.pos)
  {
  }

  lemma SearchMissed(s: Cache, dev: nat, blockno: nat, i: nat, k: nat)
    requires Places(s.pos) && |s.bufs| == NBUF && i < NBUF && s.pos[i] == k && !Caches(s.bufs[i], dev, blockno)
    requires forall j :: 0 <= j < NBUF && s.pos[j] < k ==> !Caches(s.bufs[j], dev, blockno)
    ensures forall j :: 0 <= j < NBUF && s.pos[j] < k + 1 ==> !Caches(s.bufs[j], dev, blockno)
  {
  }

  /** The list that binit builds: the last buffer first. */
  lemma InitialLinked(next: seq<nat>, prev: seq<nat>, image: seq<Block>)
    requires |next| == |prev| == NBUF + 1 && next[HEAD] == NBUF - 1 && prev[HEAD] == 0
    requires forall j :: 0 <= j < NBUF ==> next[j] == (if j == 0 then HEAD else j - 1)
    requires forall j :: 0 <= j < NBUF ==> prev[j] == (if j == NBUF - 1 then HEAD else j + 1)
    ensures Linked(next, prev, Initial(image).pos)
  {
  }

  class Bcache {
    const bufs: array<Buf>
    const next: array<nat>
    const prev: array<nat>
    var disk: seq<Block>
    ghost var refs: map<nat, Handle>
    ghost var pos: seq<nat>
    ghost var used: seq<int>
    ghost var clock: int
    ghost var flat: seq<Block>
    ghost var edited: set<nat>

    ghost function Now(): Cache
      reads this, bufs
    {
      Cache(bufs[..], disk, refs, pos, used, clock, flat, edited)
    }

    ghost predicate Valid()
      reads this, bufs, next, prev
    {
      && bufs.Length == NBUF && next.Length == prev.Length == NBUF + 1 && next != prev && Inv(Now()) && Linked(next[..], prev[..], pos)
    }

    /** binit: an empty cache over the disk image. */
    constructor (image: seq<Block>)
      ensures Valid() && fresh(bufs) && fresh(next) && fresh(prev)
      ensures Now() == Initial(image)
    {
      hide Inv, Linked;
      bufs := new Buf[NBUF](_ => Buf(0, 0, 0, false, false, [], -1));
      var n := new nat[NBUF + 1](_ => 0);
      var p := new nat[NBUF + 1](_ => 0);
      next, prev := n, p;
      disk := image;
      refs, clock, flat, edited := map[], NBUF, image, {};
      pos := Initial(image).pos;
      used := Initial(image).used;
      new;
      prev[HEAD] := HEAD;
      next[HEAD] := HEAD;
      for b := 0 to NBUF
        invariant next[HEAD] == if b == 0 then HEAD else b - 1
        invariant prev[HEAD] == if b == 0 then HEAD else 0
        invariant forall j :: 0 <= j < b ==> next[j] == (if j == 0 then HEAD else j - 1)
        invariant forall j :: 0 <= j < b ==> prev[j] == (if j == b - 1 then HEAD else j + 1)
        invariant Now() == Initial(image)
      {
        next[b] := next[HEAD];
        prev[b] := HEAD;
        prev[next[HEAD]] := b;
        next[HEAD] := b;
      }
      InitialInv(image);
      InitialLinked(next[..], prev[..], image);
    }

    /** The first loop of bget. */
    method Lookup(dev: nat, blockno: nat) returns (i: nat)
      requires Valid()
      ensures i <= NBUF
      ensures i < NBUF ==> Caches(bufs[i], dev, blockno)
      ensures i == HEAD ==> forall j :: 0 <= j < NBUF ==> !Caches(bufs[j], dev, blockno)
    {
      OrderPlaces(Now());
      hide Inv;
      FrontOfList(next[..], prev[..], pos);
      i := next[HEAD];
      ghost var k: nat := 1;
      while i != HEAD
        invariant i <= NBUF && k <= NBUF + 1 && (if i == HEAD then k == NBUF + 1 else pos[i] == k)
        invariant forall j :: 0 <= j < NBUF && pos[j] < k ==> !Caches(bufs[j], dev, blockno)
        decreases NBUF + 1 - k
      {
        if Caches(bufs[i], dev, blockno) {
          return i;
        }
        SearchMissed(Now(), dev, blockno, i, k);
        i := next[i];
        k := k + 1;
      }
    }

    /** The second loop of bget. */
    method FindVictim() returns (i: nat)
      requires Valid()
      ensures i <= NBUF
      ensures i < NBUF ==> Victim(Now(), i)
      ensures i == HEAD ==> forall j :: 0 <= j < NBUF ==> !Unused(bufs[j])
    {
      OrderPlaces(Now());
      hide Inv;
      FrontOfList(next[..], prev[..], pos);
      i := prev[HEAD];
      ghost var k: nat := NBUF;
      while i != HEAD
        invariant i <= NBUF && k <= NBUF && (if i == HEAD then k == 0 else pos[i] == k)
        invariant forall j :: 0 <= j < NBUF && pos[j] > k ==> !Unused(bufs[j])
        decreases k
      {
        if bufs[i].refcnt == 0 && !bufs[i].dirty {
          return i;
        }
        i := prev[i];
        k := k - 1;
      }
    }
  
    /** bget, up to the buffer's sleep lock; HEAD stands for the panic when every buffer is in use. */
    method Bget(dev: nat, blockno: nat, ghost h: nat) returns (i: nat)
      requires Valid() && h !in refs
      modifies bufs, `refs
      ensures i <= NBUF && Valid()
      ensures i == HEAD ==> Now() == old(Now()) && forall j :: 0 <= j < NBUF ==> !Caches(bufs[j], dev, blockno) && !Unused(bufs[j])
      ensures i < NBUF ==> Enabled(old(Now()), Get(h, dev, blockno, i)) && Now() == Apply(old(Now()), Get(h, dev, blockno, i))
    {
      hide Inv, Linked;
      ghost var s := Now();
      i := Lookup(dev, blockno);
      if i != HEAD {
        assert Hit(s, dev, blockno, i);
        StepInv(s, Get(h, dev, blockno, i));
        bufs[i] := bufs[i].(refcnt := bufs[i].refcnt + 1);
      } else {
        i := FindVictim();
        if i == HEAD {
          return;
        }
        assert forall j :: 0 <= j < NBUF ==> s.bufs[j] == bufs[j];
        assert Miss(s, dev, blockno, i);
        StepInv(s, Get(h, dev, blockno, i));
        bufs[i] := Buf(dev, blockno, 1, false, false, bufs[i].data, bufs[i].owner);
      }
      refs := refs[h := Handle(i, dev, blockno, Waiting)];
      assert bufs[..] == Apply(s, Get(h, dev, blockno, i)).bufs;
    }

    /** acquiresleep on a buffer; false when the process sleeps. */
    method AcquireSleep(i: nat, h: nat) returns (got: bool)
      requires Valid() && In(Now(), h, Waiting) && refs[h].buf == i
      modifies bufs, `refs
      ensures Valid() && (got <==> Enabled(old(Now()), Acquire(h)))
      ensures Now() == if got then Apply(old(Now()), Acquire(h)) else old(Now())
    {
      hide Inv, Linked;
      if bufs[i].owner != -1 {
        return false;
      }
      ghost var s := Now();
      StepInv(s, Acquire(h));
      bufs[i] := bufs[i].(owner := h);
      refs := refs[h := refs[h].(phase := Holding)];
      assert bufs[..] == Apply(s, Acquire(h)).bufs;
      return true;
    }

    /** iderw: write a dirty buffer to the disk, or read one that is not valid. */
    method IdeRw(i: nat)
      requires i < bufs.Length && (bufs[i].valid ==> bufs[i].dirty)
      requires bufs[i].dev == DISK && bufs[i].blockno < |disk|
      modifies bufs, `disk
      ensures var b := old(bufs[i]);
              if b.dirty
              then bufs[..] == old(bufs[..])[i := b.(dirty := false, valid := true)] && disk == old(disk)[b.blockno := b.data]
              else bufs[..] == old(bufs[..])[i := b.(data := old(disk)[b.blockno], valid := true)] && disk == old(disk)
    {
      if bufs[i].dirty {
        bufs[i] := bufs[i].(dirty := false);
        disk := disk[bufs[i].blockno := bufs[i].data];
      } else {
        bufs[i] := bufs[i].(data := disk[bufs[i].blockno]);
      }
      bufs[i] := bufs[i].(valid := true);
    }

    /** The rest of bread: the holder's buffer is read from the disk unless it is valid. */
    method Bread(i: nat, ghost h: nat)
      requires Valid() && In(Now(), h, Holding) && refs[h].buf == i && OnDisk(Now(), h)
      modifies bufs, `disk
      ensures Valid() && bufs[i].valid
      ensures Now() == if old(bufs[i]).valid then old(Now()) else Apply(old(Now()), Fill(h))
    {
      hide Inv, Linked;
      HandleFacts(Now(), h);
      if !bufs[i].valid {
        ghost var s := Now();
        StepInv(s, Fill(h));
        IdeRw(i);
        assert bufs[..] == Apply(s, Fill(h)).bufs;
      }
    }

    /** bwrite, and what users should see of the block. */
    method Bwrite(i: nat, ghost h: nat)
      requires Valid() && In(Now(), h, Holding) && refs[h].buf == i && OnDisk(Now(), h)
      modifies bufs, `disk, `flat, `edited
      ensures Valid() && Now() == Apply(old(Now()), BWrite(h))
    {
      hide Inv, Linked;
      HandleFacts(Now(), h);
      ghost var s := Now();
      StepInv(s, BWrite(h));
      bufs[i] := bufs[i].(dirty := true);
      IdeRw(i);
      flat, edited := flat[bufs[i].blockno := bufs[i].data], edited - {i};
      assert bufs[..] == Apply(s, BWrite(h)).bufs;
    }

    /** A holder changes the data in its buffer. */
    method Change(i: nat, ghost h: nat, data: Block)
      requires Valid() && In(Now(), h, Holding) && refs[h].buf == i && bufs[i].valid
      modifies bufs, `edited
      ensures Valid() && Now() == Apply(old(Now()), Edit(h, data))
    {
      hide Inv, Linked;
      ghost var s := Now();
      StepInv(s, Edit(h, data));
      bufs[i] := bufs[i].(data := data);
      edited := edited + {i};
      assert bufs[..] == Apply(s, Edit(h, data)).bufs;
    }

    /** log_write's mark: the buffer stays in the cache until the log is installed. */
    method MarkDirty(i: nat, ghost h: nat)
      requires Valid() && In(Now(), h, Holding) && refs[h].buf == i && bufs[i].valid
      modifies bufs, `flat, `edited
      ensures Valid() && Enabled(old(Now()), LogWrite(h)) && Now() == Apply(old(Now()), LogWrite(h))
    {
      hide Inv, Linked;
      HandleFacts(Now(), h);
      ghost var s := Now();
      StepInv(s, LogWrite(h));
      bufs[i] := bufs[i].(dirty := true);
      flat, edited := flat[bufs[i].blockno := bufs[i].data], edited - {i};
      assert bufs[..] == Apply(s, LogWrite(h)).bufs;
    }

    /** brelse, first section: give up the sleep lock. */
    method ReleaseSleep(i: nat, ghost h: nat)
      requires Valid() && In(Now(), h, Holding) && refs[h].buf == i && i !in edited
      modifies bufs, `refs
      ensures Valid() && Now() == Apply(old(Now()), Unlock(h))
    {
      hide Inv, Linked;
      ghost var s := Now();
      StepInv(s, Unlock(h));
      bufs[i] := bufs[i].(owner := -1);
      refs := refs[h := refs[h].(phase := Dropping)];
      assert bufs[..] == Apply(s, Unlock(h)).bufs;
    }

    /** Move buffer `i` to the front of the list. */
    method MoveToFront(i: nat)
      requires next != prev && Linked(next[..], prev[..], pos) && Places(pos) && i < NBUF
      modifies next, prev, `pos
      ensures pos == ToFront(old(pos), i) && Linked(next[..], prev[..], pos)
    {
      SpliceLinked(next[..], prev[..], pos, i);
      prev[next[i]] := prev[i];
      next[prev[i]] := next[i];
      next[i] := next[HEAD];
      prev[i] := HEAD;
      prev[next[HEAD]] := i;
      next[HEAD] := i;
      pos := ToFront(pos, i);
    }

    /** brelse, second section: drop the reference, and move a buffer nobody waits for to the front. */
    method Brelse(i: nat, ghost h: nat)
      requires Valid() && In(Now(), h, Dropping) && refs[h].buf == i
      modifies this, bufs, next, prev
      ensures Valid() && Enabled(old(Now()), Drop(h)) && Now() == Apply(old(Now()), Drop(h))
    {
      hide Inv, Linked, Places, ToFront, Apply;
      HandleFacts(Now(), h);
      OrderPlaces(Now());
      ghost var s := Now();
      StepInv(s, Drop(h));
      DropIs(s, h);
      bufs[i] := bufs[i].(refcnt := bufs[i].refcnt - 1);
      refs := refs - {h};
      assert bufs[..] == s.bufs[i := s.bufs[i].(refcnt := s.bufs[i].refcnt - 1)];
      if bufs[i].refcnt == 0 {
        MoveToFront(i);
        used, clock := used[i := clock], clock + 1;
      }
    }
  }

  lemma DropIs(s: Cache, h: nat)
    requires Enabled(s, Drop(h))
    ensures Apply(s, Drop(h)) == DoDrop(s, h)
  {
  }

  lemma HandleFacts(s: Cache, h: nat)
    requires Inv(s) && h in s.refs
    ensures s.refs[h].buf < NBUF == |s.bufs| == |s.pos| == |s.used| && |s.flat| == |s.disk|
    ensures Caches(BufOf(s, h), s.refs[h].dev, s.refs[h].blockno)
    ensures BufOf(s, h).dirty ==> BufOf(s, h).valid
    ensures BufOf(s, h).valid ==> OnDisk(s, h)
  {
  }
}
