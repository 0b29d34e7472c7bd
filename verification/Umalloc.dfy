/** malloc and free over headers that are relinked in place.

    `free` and `live` are the free and the allocated blocks, `heap` the units obtained from sbrk. */
module Umalloc {
  import opened FreeList

  const MINUNITS: nat := 4096

  /** Header units for a request, in 32-bit unsigned arithmetic with 8-byte headers. */
  function Request(nbytes: nat): (n: nat)
    ensures n >= 1
  {
    (nbytes + 7) % 0x1_0000_0000 / 8 + 1
  }

  /** The block is large enough for the request exactly if the rounding does not wrap around. */
  lemma RequestIsEnough(nbytes: nat)
    requires nbytes < 0x1_0000_0000
    ensures 8 * (Request(nbytes) - 1) >= nbytes <==> nbytes <= 0x1_0000_0000 - 8
  {
  }

  /** The byte count passed to sbrk, an int, is positive exactly for these requests. */
  lemma RequestFitsSbrk(nbytes: nat)
    requires nbytes < 0x1_0000_0000
    ensures 8 * Request(nbytes) < 0x8000_0000 <==> nbytes <= 0x8000_0000 - 16 || nbytes > 0x1_0000_0000 - 8
  {
  }

  /** A 32-bit word as the C type int. */
  function ToInt(w: nat): int {
    var x := w % 0x1_0000_0000;
    if x < 0x8000_0000 then x else x - 0x1_0000_0000
  }

  /** The size of the process after a growproc(n) that succeeds: allocuvm for positive `n`, deallocuvm for negative,
      which leaves the size alone if the sum wraps around to something larger. */
  function Grown(sz: nat, n: int): int {
    if n >= 0 then sz + n else if sz + n < 0 then sz else sz + n
  }

  /** Units that morecore asks for. */
  function MoreUnits(nu: nat): nat {
    if nu < MINUNITS then MINUNITS else nu
  }

  /** When sbrk succeeds, the units that morecore frees are part of the process exactly for these requests.  For the
      others sbrk's argument is negative or zero, so the process shrinks or stays. */
  lemma MorecoreGetsMemory(sz: nat, nbytes: nat)
    requires sz <= 0x8000_0000 && nbytes < 0x1_0000_0000
    ensures sz + 8 * MoreUnits(Request(nbytes)) <= Grown(sz, ToInt(8 * MoreUnits(Request(nbytes))))
            <==> nbytes <= 0x8000_0000 - 16 || nbytes > 0x1_0000_0000 - 8
  {
    RequestFitsSbrk(nbytes);
    assert Request(nbytes) <= 0x2000_0000;
  }

  /** Addresses on the ring above `p`. */
  ghost function Above(free: Blocks, p: nat): set<nat> {
    set c | c in free && c > p
  }

  lemma AboveShrinks(free: Blocks, p: nat, q: nat)
    requires p < q && q in free
    ensures Above(free, q) < Above(free, p)
  {
    assert q in Above(free, p) && q !in Above(free, q);
  }

  /** Blocks that do not overlap each other. */
  ghost predicate Disjoint(bs: Blocks) {
    forall a, c :: a in bs && c in bs && a < c ==> a + bs[a] <= c
  }

  /** The block at `b` overlaps no free block. */
  ghost predicate Clear(free: Blocks, b: nat, n: nat) {
    b !in free && forall c :: c in free ==> c + free[c] <= b || b + n <= c
  }

  /** Every unit obtained from sbrk is in exactly one of a free and an allocated block. */
  ghost predicate Partition(free: Blocks, live: Blocks, heap: set<nat>) {
    && (forall u: nat :: u in heap <==> Covers(free, u) || Covers(live, u))
    && (forall b :: b in live ==> Clear(free, b, live[b]))
    && Disjoint(live)
  }

  /** Headers of allocated blocks are intact, and free and allocated blocks together are what was obtained. */
  ghost predicate Accounted(m: Mem, free: Blocks, live: Blocks, heap: set<nat>, obtained: int) {
    && UserBlocks(live) && (forall b :: b in live ==> Size(m, b) == live[b])
    && Partition(free, live, heap)
    && Units(free) + Units(live) == obtained
  }

  lemma ClearFromCovers(free: Blocks, x: nat, n: nat)
    requires n > 0 && x > BASE && (forall c :: c in free ==> free[c] > 0 || c == BASE)
    requires BASE in free ==> free[BASE] == 0
    requires forall u :: x <= u < x + n ==> !Covers(free, u)
    ensures Clear(free, x, n)
  {
    forall c | c in free ensures c + free[c] <= x || x + n <= c {
      var u := if c < x then x else c;
      if x <= u < x + n && c <= u < c + free[c] {
        assert Covers(free, u);
      }
    }
    assert x in free ==> Covers(free, x);
  }

  lemma CoverRemove(bs: Blocks, b: nat, u: int)
    requires b in bs
    ensures Covers(bs, u) <==> Covers(bs - {b}, u) || b <= u < b + bs[b]
  {
    CoverAdd(bs - {b}, b, bs[b], u);
    assert (bs - {b})[b := bs[b]] == bs;
  }

  /** Live blocks are the user's: not BASE, not empty. */
  ghost predicate UserBlocks(live: Blocks) {
    forall b :: b in live ==> b > BASE && live[b] > 0
  }

  lemma LiveNotCovered(free: Blocks, live: Blocks, x: nat, u: int)
    requires x in live && Clear(free, x, live[x]) && x <= u < x + live[x]
    ensures !Covers(free, u)
  {
  }

  lemma FreePartition(free: Blocks, live: Blocks, heap: set<nat>, free': Blocks, b: nat)
    requires Partition(free, live, heap) && UserBlocks(live) && b in live
    requires (forall c :: c in free' ==> free'[c] > 0 || c == BASE) && (BASE in free' ==> free'[BASE] == 0)
    requires forall u: int :: Covers(free', u) <==> Covers(free, u) || b <= u < b + live[b]
    ensures Partition(free', live - {b}, heap)
  {
    var live' := live - {b};
    forall x | x in live' ensures Clear(free', x, live'[x]) {
      forall u | x <= u < x + live[x] ensures !Covers(free', u) {
        LiveNotCovered(free, live, x, u);
      }
      ClearFromCovers(free', x, live[x]);
    }
    forall u: nat ensures u in heap <==> Covers(free', u) || Covers(live', u) {
      CoverRemove(live, b, u);
    }
    hide Covers, Clear;
  }

  lemma AllocPartition(free: Blocks, live: Blocks, heap: set<nat>, free': Blocks, p: nat, b: nat, n: nat)
    requires Partition(free, live, heap) && UserBlocks(live) && p in free && n > 0 && p <= b && b + n == p + free[p]
    requires free' == if b == p then free - {p} else free[p := b - p]
    requires Disjoint(free)
    ensures b !in live && Partition(free', live[b := n], heap)
  {
    assert b in live ==> Clear(free, b, live[b]);
    var live' := live[b := n];
    forall x | x in live' ensures Clear(free', x, live'[x]) {
      if x != b {
        assert Clear(free, x, live[x]);
      }
    }
    forall a, c | a in live' && c in live' && a < c ensures a + live'[a] <= c {
      assert a != b ==> Clear(free, a, live[a]);
      assert c != b ==> Clear(free, c, live[c]);
    }
    forall u: nat ensures u in heap <==> Covers(free', u) || Covers(live', u) {
      CoverAdd(live, b, n, u);
      CoverRemove(free, p, u);
      if b != p {
        CoverRemove(free', p, u);
        assert free' - {p} == free - {p};
      }
    }
  }

  lemma LiveClear(free: Blocks, live: Blocks, heap: set<nat>, b: nat)
    requires Partition(free, live, heap) && b in live
    ensures Clear(free, b, live[b])
  {
  }

  lemma LiveSizes(free: Blocks, live: Blocks, heap: set<nat>)
    requires Partition(free, live, heap)
    ensures forall b :: b in live ==> b !in free
  {
  }

  /** What free does to the ring and to the set of free blocks. */
  lemma FreeSummary(m: Mem, free: Blocks, p: nat, b: nat)
    requires Ring(m, free) && Coalesced(free) && b > BASE && Size(m, b) > 0 && InGap(m, free, p, b, Size(m, b))
    ensures var free' := FreedBlocks(m, free, p, b);
            && Ring(FreedMem(m, p, b), free') && Coalesced(free') && p in free'
            && Units(free') == Units(free) + Size(m, b)
            && Holds(free', b, Size(m, b))
            && (forall u: int :: Covers(free', u) <==> Covers(free, u) || b <= u < b + Size(m, b))
  {
    forall u: int
      ensures Covers(FreedBlocks(m, free, p, b), u) <==> Covers(free, u) || b <= u < b + Size(m, b)
    {
      FreeCovers(m, free, p, b, u);
    }
    FreeCovers(m, free, p, b, 0);
    var m1, free1 := Linked(m, p, b), free[b := Size(m, b)];
    FreeLower(m, free, p, b, MergeIfTouching(m1, b), BlocksIfTouching(m1, free1, b));
    hide Ring, Coalesced, Units, Covers, Holds, MergeIfTouching, BlocksIfTouching;
  }

  lemma RingSizes(m: Mem, free: Blocks)
    requires Ring(m, free)
    ensures BASE in free && free[BASE] == 0 && Disjoint(free)
    ensures forall c :: c in free ==> c >= BASE && (free[c] > 0 || c == BASE) && Size(m, c) == free[c]
  {
  }

  /** The units `at .. at + n`. */
  ghost function Range(at: nat, n: nat): (r: set<nat>)
    ensures forall u :: u in r <==> at <= u < at + n
  {
    if n == 0 then {} else Range(at, n - 1) + {at + n - 1}
  }

  /** Memory at `at` is above everything obtained so far. */
  ghost predicate Fresh(heap: set<nat>, at: nat) {
    at > BASE && forall u :: u in heap ==> u < at
  }

  lemma FreshBlock(free: Blocks, live: Blocks, heap: set<nat>, at: nat, n: nat)
    requires Partition(free, live, heap) && UserBlocks(live) && Fresh(heap, at) && n > 0
    requires forall c :: c in free ==> free[c] > 0 || (c == BASE && free[c] == 0)
    ensures at !in live
    ensures Partition(free, live[at := n], heap + Range(at, n))
  {
    forall b | b in live ensures b + live[b] <= at {
      var u := b + live[b] - 1;
      assert Covers(live, u);
    }
    forall c | c in free ensures c + free[c] <= at && c != at {
      if free[c] > 0 {
        var u := c + free[c] - 1;
        assert Covers(free, u);
      }
    }
    var live', heap' := live[at := n], heap + Range(at, n);
    forall u: nat ensures u in heap' <==> Covers(free, u) || Covers(live', u) {
      CoverAdd(live, at, n, u);
    }
  }

  lemma SmallerCoalesced(free: Blocks, p: nat, rest: nat)
    requires Coalesced(free) && p in free && rest <= free[p]
    ensures Coalesced(free - {p}) && Coalesced(free[p := rest])
  {
  }

  /** Handing out the whole block after `prevp`. */
  lemma CarveAll(m: Mem, free: Blocks, live: Blocks, heap: set<nat>, obtained: int, prevp: nat)
    requires Ring(m, free) && Coalesced(free) && Accounted(m, free, live, heap, obtained)
    requires prevp in free && Size(m, Ptr(m, prevp)) > 0 && Ptr(m, prevp) in free
    ensures var p := Ptr(m, prevp);
            var m', free', live' := Unlinked(m, prevp), free - {p}, live[p := free[p]];
            && p !in live && prevp != p
            && Ring(m', free') && Coalesced(free') && Accounted(m', free', live', heap, obtained)
  {
    hide Ring, Units, Ptr, Coalesced, Partition, Disjoint;
    var p := Ptr(m, prevp);
    RingSizes(m, free);
    LiveSizes(free, live, heap);
    SmallerCoalesced(free, p, 0);
    AllocPartition(free, live, heap, free - {p}, p, p, free[p]);
    UnlinkRing(m, free, prevp);
    UnitsRemove(free, p);
    UnitsSet(live, p, free[p]);
  }

  /** Handing out the top `n` units of block `p`. */
  lemma CarveTop(m: Mem, free: Blocks, live: Blocks, heap: set<nat>, obtained: int, p: nat, n: nat)
    requires Ring(m, free) && Coalesced(free) && Accounted(m, free, live, heap, obtained)
    requires p in free && 0 < n < Size(m, p)
    ensures Size(m, p) == free[p]
    ensures var b := p + free[p] - n;
            var m', free', live' := Split(m, p, n), free[p := free[p] - n], live[b := n];
            && b !in live
            && Ring(m', free') && Coalesced(free') && Accounted(m', free', live', heap, obtained)
  {
    hide Ring, Units, Coalesced, Partition, Disjoint;
    RingSizes(m, free);
    LiveSizes(free, live, heap);
    SmallerCoalesced(free, p, free[p] - n);
    AllocPartition(free, live, heap, free[p := free[p] - n], p, p + free[p] - n, n);
    SplitRing(m, free, p, n);
    UnitsSet(free, p, free[p] - n);
    UnitsSet(live, p + free[p] - n, n);
  }

  /** Going round the ring from `p`, block `q` comes no later than block `f`. */
  ghost predicate Ahead(p: nat, q: nat, f: nat) {
    if p <= f then p <= q <= f else q >= p || q <= f
  }

  lemma AheadFirst(m: Mem, free: Blocks, f: nat, q: nat)
    requires Ring(m, free) && f in free && q in free
    ensures Ptr(m, f) in free && Ahead(Ptr(m, f), q, f)
  {
    assert Follows(free, f, Ptr(m, f));
  }

  /** One step along the ring: no block that is ahead is skipped, and the way to `f` gets shorter. */
  lemma AheadNext(m: Mem, free: Blocks, p: nat, f: nat)
    requires Ring(m, free) && p in free && f in free && p != f
    ensures Ptr(m, p) in free
    ensures forall q :: q in free && q != p && Ahead(p, q, f) ==> Ahead(Ptr(m, p), q, f)
    ensures Ptr(m, p) > p ==> (Ptr(m, p) > f <==> p > f) && Above(free, Ptr(m, p)) < Above(free, p)
    ensures Ptr(m, p) <= p ==> p > f && Ptr(m, p) <= f
  {
    assert Follows(free, p, Ptr(m, p));
    if Ptr(m, p) > p {
      AboveShrinks(free, p, Ptr(m, p));
    }
  }

  lemma FirstRing(m: Mem, heap: set<nat>, obtained: int)
    requires Ptr(m, BASE) == BASE && Size(m, BASE) == 0 && Accounted(m, map[], map[], heap, obtained)
    ensures Ring(m, map[BASE := 0]) && Coalesced(map[BASE := 0]) && Accounted(m, map[BASE := 0], map[], heap, obtained)
  {
    var free: Blocks := map[BASE := 0];
    forall a | a in free ensures Follows(free, a, Ptr(m, a)) {
    }
    UnitsSet(map[], BASE, 0);
    assert Units(map[]) == 0;
  }

  /** Blocks that the search has passed are too small. */
  ghost predicate Passed(free: Blocks, p: nat, f: nat, n: nat) {
    forall c :: c in free && !Ahead(p, c, f) ==> free[c] < n
  }

  /** A block that is large enough still lies ahead. */
  ghost predicate Promised(free: Blocks, p: nat, f: nat, n: nat) {
    exists q :: q in free && Ahead(p, q, f) && free[q] >= n
  }

  lemma SearchStart(m: Mem, free: Blocks, f: nat, n: nat)
    requires Ring(m, free) && f in free
    ensures Ptr(m, f) in free && Passed(free, Ptr(m, f), f, n)
    ensures (exists q :: q in free && free[q] >= n) ==> Promised(free, Ptr(m, f), f, n)
  {
    forall q | q in free ensures Ahead(Ptr(m, f), q, f) {
      AheadFirst(m, free, f, q);
    }
    assert Follows(free, f, Ptr(m, f));
  }

  lemma SearchStep(m: Mem, free: Blocks, p: nat, f: nat, n: nat)
    requires Ring(m, free) && p in free && f in free && p != f && free[p] < n && Passed(free, p, f, n)
    ensures Ptr(m, p) in free && Passed(free, Ptr(m, p), f, n)
    ensures Promised(free, p, f, n) ==> Promised(free, Ptr(m, p), f, n)
  {
    AheadNext(m, free, p, f);
    hide Ahead, Ring;
  }

  lemma HoldsEnough(free: Blocks, b: nat, got: nat, n: nat)
    requires Holds(free, b, got) && got >= n
    ensures exists q :: q in free && free[q] >= n
  {
    var a :| a in free && a <= b && b + got <= a + free[a];
    assert free[a] >= n;
  }

  /** At the end of the round nothing large enough was there. */
  lemma SearchEnd(free: Blocks, f: nat, n: nat)
    requires f in free && free[f] < n && Passed(free, f, f, n)
    ensures forall c :: c in free ==> free[c] < n
    ensures !Promised(free, f, f, n)
  {
  }

  class Allocator {
    var ptr: map<nat, nat>
    var size: map<nat, nat>
    var freep: nat
    ghost var free: Blocks
    ghost var live: Blocks
    ghost var heap: set<nat>
    ghost var obtained: nat   // units obtained from sbrk

    function M(): Mem
      reads this
    {
      Mem(ptr, size)
    }

    ghost predicate Valid()
      reads this
    {
      && (freep == NULL ==> free == map[] && live == map[])
      && (freep != NULL ==> freep in free && Ring(M(), free) && Coalesced(free))
      && Accounted(M(), free, live, heap, obtained)
    }

    /** Before the first call. */
    constructor ()
      ensures Valid() && freep == NULL && heap == {}
    {
      ptr, size, freep := map[], map[], NULL;
      free, live, heap, obtained := map[], map[], {}, 0;
      new;
      assert forall u :: !Covers(free, u);
    }

    /** free's search: the ring position whose gap holds `bp`. */
    method FindGap(bp: nat) returns (p: nat)
      requires freep in free && Ring(M(), free) && bp > BASE && Size(M(), bp) > 0 && Clear(free, bp, Size(M(), bp))
      ensures InGap(M(), free, p, bp, Size(M(), bp))
    {
      p := freep;
      while !(bp > p && bp < Ptr(M(), p))
        invariant p in free
        decreases if p > bp then 1 else 0, Above(free, p)
      {
        assert Follows(free, p, Ptr(M(), p));
        if p >= Ptr(M(), p) && (bp > p || bp < Ptr(M(), p)) {
          break;
        }
        if Ptr(M(), p) > p {
          AboveShrinks(free, p, Ptr(M(), p));
        }
        p := Ptr(M(), p);
      }
      assert Follows(free, p, Ptr(M(), p));
    }

    /** free: the block leaves the allocated blocks and its units become free, coalesced with their
        neighbours; `freep` is left just below it. */
    method Free(ap: nat)
      requires Valid() && ap >= 1 && ap - 1 in live
      modifies this`ptr, this`size, this`freep, this`free, this`live
      ensures Valid() && live == old(live) - {ap - 1} && freep != NULL
      ensures Holds(free, ap - 1, old(live)[ap - 1])
    {
      hide Ring, Coalesced, Covers, Units, FreedBlocks, FreedMem, Holds, Partition, InGap;
      var bp := ap - 1;
      ghost var m, n := M(), live[bp];
      LiveClear(free, live, heap, bp);
      var p := FindGap(bp);
      FreeSummary(m, free, p, bp);
      ghost var free' := FreedBlocks(m, free, p, bp);
      Relink(p, bp);
      freep := p;
      RingSizes(M(), free');
      FreePartition(free, live, heap, free', bp);
      UnitsRemove(live, bp);
      LiveSizes(free, live, heap);
      free, live := free', live - {bp};
    }

    /** The first half of free's header updates: `bp` takes over the link of `p`, and joins the block above it if they
        touch. */
    method JoinUpper(p: nat, bp: nat)
      requires p < bp && Ptr(M(), p) != bp
      modifies this`ptr, this`size
      ensures var upper := MergeIfTouching(Linked(old(M()), p, bp), bp); ptr[p := bp] == upper.ptr && size == upper.size
      ensures forall b :: b != bp ==> Size(M(), b) == Size(old(M()), b)
    {
      var q := Ptr(M(), p);
      if bp + Size(M(), bp) == q {
        size := size[bp := Size(M(), bp) + Size(M(), q)];
        ptr := ptr[bp := Ptr(M(), q)];
      } else {
        ptr := ptr[bp := q];
      }
    }

    /** The second half: `p` is linked to `bp`, or joined with it if they touch. */
    method JoinLower(p: nat, bp: nat, ghost upper: Mem)
      requires p != bp && ptr[p := bp] == upper.ptr && size == upper.size
      modifies this`ptr, this`size
      ensures M() == MergeIfTouching(upper, p)
      ensures forall b :: b != p ==> Size(M(), b) == Size(old(M()), b)
    {
      assert Ptr(upper, p) == bp && Ptr(upper, bp) == Ptr(M(), bp);
      if p + Size(M(), p) == bp {
        size := size[p := Size(M(), p) + Size(M(), bp)];
        ptr := ptr[p := Ptr(M(), bp)];
      } else {
        ptr := ptr[p := bp];
      }
    }

    /** The header updates of free, with `bp` in the gap after `p`. */
    method Relink(p: nat, bp: nat)
      requires Ring(M(), free) && bp > BASE && Size(M(), bp) > 0 && InGap(M(), free, p, bp, Size(M(), bp))
      modifies this`ptr, this`size
      ensures M() == FreedMem(old(M()), p, bp)
      ensures forall b :: b !in free && b != bp ==> Size(M(), b) == Size(old(M()), b)
    {
      assert Follows(free, p, Ptr(M(), p));
      hide Ring, Follows, MergeIfTouching, Linked;
      ghost var upper := MergeIfTouching(Linked(M(), p, bp), bp);
      JoinUpper(p, bp);
      JoinLower(p, bp, upper);
    }

    /** morecore: ask sbrk for at least MINUNITS units and free them.  `at` is what sbrk returns,
        NULL if it fails. */
    method Morecore(nu: nat, at: nat) returns (p: nat, ghost n: nat)
      requires Valid() && freep != NULL && nu > 0 && (at != NULL ==> Fresh(heap, at))
      modifies this
      ensures Valid() && live == old(live) && p == (if at == NULL then NULL else freep) && freep != NULL
      ensures at == NULL ==> M() == old(M()) && free == old(free) && heap == old(heap) && freep == old(freep)
      ensures at != NULL ==> n == MoreUnits(nu) && Holds(free, at, n) && heap == old(heap) + Range(at, n)
    {
      hide Ring, Coalesced, Units, Holds, Partition, Range, UserBlocks;
      var nu' := MoreUnits(nu);
      n := nu';
      if at == NULL {
        return NULL, n;
      }
      AddFresh(at, nu');
      Free(at + 1);
      assert old(live)[at := nu'] - {at} == old(live);
      return freep, n;
    }

    /** The new memory becomes a block as if it had been allocated. */
    method AddFresh(at: nat, n: nat)
      requires Valid() && freep != NULL && n > 0 && Fresh(heap, at)
      modifies this`size, this`live, this`heap, this`obtained
      ensures Valid() && at !in old(live) && live == old(live)[at := n] && heap == old(heap) + Range(at, n)
    {
      hide Ring, Coalesced, Covers, Units, Holds, Partition, Clear, Range;
      RingSizes(M(), free);
      FreshBlock(free, live, heap, at, n);
      LiveSizes(free, live[at := n], heap + Range(at, n));
      OtherHeader(M(), free, at, n);
      UnitsSet(live, at, n);
      size := size[at := n];
      live, heap, obtained := live[at := n], heap + Range(at, n), obtained + n;
    }

    /** malloc has found a block `p` that is large enough: hand out all of it or its top end. */
    method Carve(prevp: nat, p: nat, n: nat) returns (b: nat)
      requires Valid() && freep != NULL && prevp in free && p in free && Ptr(M(), prevp) == p
      requires 0 < n <= Size(M(), p)
      modifies this`ptr, this`size, this`freep, this`free, this`live
      ensures Valid() && b !in old(live) && live == old(live)[b := n] && freep == prevp
    {
      hide Ring, Coalesced, Accounted;
      if Size(M(), p) == n {
        CarveAll(M(), free, live, heap, obtained, prevp);
        RingSizes(M(), free);
        b := p;
        ptr := ptr[prevp := Ptr(M(), p)];
        free, live := free - {p}, live[p := n];
      } else {
        CarveTop(M(), free, live, heap, obtained, p, n);
        RingSizes(M(), free);
        var rest := Size(M(), p) - n;
        b := p + rest;
        size := size[p := rest];
        size := size[b := n];
        free, live := free[p := rest], live[b := n];
      }
      freep := prevp;
    }

    /** The search starts behind freep. */
    method StartSearch(n: nat) returns (prevp: nat, p: nat)
      requires Valid()
      modifies this`ptr, this`size, this`freep, this`free
      ensures Valid() && freep != NULL && prevp == freep && p == Ptr(M(), prevp) && p in free && Passed(free, p, freep, n)
      ensures forall c :: c in old(free) ==> c in free && free[c] == old(free)[c]
    {
      hide Ring, Coalesced, Accounted, Passed, Promised;
      if freep == NULL {
        InitBase();
      }
      prevp := freep;
      SearchStart(M(), free, freep, n);
      p := Ptr(M(), prevp);
    }

    /** The search starts again after morecore, with a large enough block ahead. */
    method Refill(n: nat, at: nat) returns (p: nat)
      requires Valid() && freep != NULL && n > 0 && (at != NULL ==> Fresh(heap, at))
      modifies this
      ensures Valid() && live == old(live) && freep != NULL && p == (if at == NULL then NULL else freep)
      ensures heap == if at == NULL then old(heap) else old(heap) + Range(at, MoreUnits(n))
      ensures at != NULL ==> p in free && Ptr(M(), p) in free
      ensures at != NULL ==> Passed(free, Ptr(M(), p), freep, n) && Promised(free, Ptr(M(), p), freep, n)
    {
      hide Ring, Coalesced, Accounted, Passed, Promised, Holds, Range;
      ghost var got;
      p, got := Morecore(n, at);
      if p != NULL {
        SearchStart(M(), free, freep, n);
        HoldsEnough(free, at, got, n);
      }
    }

    /** malloc.  `at` is what sbrk returns if it is called, NULL if it fails.  The new block is disjoint from all others
        and part of what sbrk has returned, morecore is called at most once, and failure means nothing free was large
        enough.  Whether the process has that memory is MorecoreGetsMemory's question. */
    method Malloc(nbytes: nat, at: nat) returns (ap: nat, ghost calls: nat)
      requires Valid() && nbytes < 0x1_0000_0000
      requires at != NULL ==> Fresh(heap, at)
      modifies this
      ensures Valid() && calls <= 1 && freep != NULL
      ensures ap != NULL ==> ap - 1 !in old(live) && live == old(live)[ap - 1 := Request(nbytes)]
      ensures ap == NULL ==> live == old(live) && at == NULL && forall c :: c in old(free) ==> old(free)[c] < Request(nbytes)
      ensures heap == if calls == 0 || at == NULL then old(heap) else old(heap) + Range(at, MoreUnits(Request(nbytes)))
    {
      hide Ring, Coalesced, Accounted, Request, Passed, Promised, Holds, Above, Ptr, Size, Fresh, Ahead, Range, MoreUnits;
      var n := Request(nbytes);
      calls := 0;
      var prevp, p := StartSearch(n);
      ghost var free0 := free;
      while true
        invariant Valid() && freep != NULL && calls <= 1 && live == old(live)
        invariant p in free && prevp in free && Ptr(M(), prevp) == p
        invariant Passed(free, p, freep, n)
        invariant calls == 0 ==> free == free0 && heap == old(heap)
        invariant calls == 1 ==> Promised(free, p, freep, n) && at != NULL && heap == old(heap) + Range(at, MoreUnits(n))
        decreases 1 - calls, if p > freep then 1 else 0, Above(free, p)
      {
        RingSizes(M(), free);
        if Size(M(), p) >= n {
          var b := Carve(prevp, p, n);
          return b + 1, calls;
        }
        if p == freep {
          SearchEnd(free, p, n);
          p := Refill(n, at);
          calls := calls + 1;
          if p == NULL {
            return NULL, calls;
          }
          prevp, p := p, Ptr(M(), p);
        } else {
          SearchStep(M(), free, p, freep, n);
          AheadNext(M(), free, p, freep);
          prevp, p := p, Ptr(M(), p);
        }
      }
    }

    /** The first malloc sets up the ring of the static header alone. */
    method InitBase()
      requires Valid() && freep == NULL
      modifies this`ptr, this`size, this`freep, this`free
      ensures Valid() && freep != NULL && free == map[BASE := 0]
    {
      ptr := ptr[BASE := BASE];
      size := size[BASE := 0];
      freep := BASE;
      FirstRing(M(), heap, obtained);
      free := map[BASE := 0];
    }
  }

  /** Units of a block are units of the heap. */
  lemma LiveInHeap(a: Allocator, b: nat, u: nat)
    requires a.Valid() && b in a.live && b <= u < b + a.live[b]
    ensures u in a.heap
  {
    hide Ring, Coalesced, Units;
    assert Covers(a.live, u);
  }

  /** A first request of 2 GB in a process of `sz` bytes: sbrk succeeds without growing the process, and malloc returns a
      block all of which is outside it. */
  method MallocOutside(sz: nat) returns (a: Allocator, ap: nat)
    requires sz % 8 == 0 && BASE < sz / 8 && sz <= 0x8000_0000
    ensures ap != NULL && ap - 1 in a.live && a.live[ap - 1] == Request(0x8000_0000)
    ensures Grown(sz, ToInt(8 * MoreUnits(Request(0x8000_0000)))) <= sz
    ensures forall u: nat :: ap - 1 <= u < ap - 1 + a.live[ap - 1] ==> 8 * u >= sz
  {
    hide Ring, Coalesced, Accounted;
    a := new Allocator();
    ghost var calls;
    ap, calls := a.Malloc(0x8000_0000, sz / 8);
    forall u: nat | ap - 1 <= u < ap - 1 + a.live[ap - 1] ensures 8 * u >= sz {
      LiveInHeap(a, ap - 1, u);
    }
  }
}
