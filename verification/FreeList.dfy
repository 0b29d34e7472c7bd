/** The circular free list of the user-level allocator, as values.

    Addresses count header-sized units.  `m.ptr` and `m.size` are the header fields in memory; `free`
    maps the address of each free block to its size and includes the static header BASE of size 0. */
module FreeList {
  const NULL: nat := 0
  const BASE: nat := 1

  type Blocks = map<nat, nat>

  datatype Mem = Mem(ptr: map<nat, nat>, size: map<nat, nat>)

  /** Header fields at address `a`. */
  function Ptr(m: Mem, a: nat): nat {
    if a in m.ptr then m.ptr[a] else NULL
  }

  function Size(m: Mem, a: nat): nat {
    if a in m.size then m.size[a] else 0
  }

  /** Headers agree with `free`; blocks other than BASE are not empty and do not overlap. */
  ghost predicate Headers(m: Mem, free: Blocks) {
    && BASE in free && free[BASE] == 0
    && (forall a :: a in free ==> Size(m, a) == free[a])
    && (forall a :: a in free ==> BASE <= a && (a != BASE ==> free[a] > 0))
    && (forall a, c :: a in free && c in free && a < c ==> a + free[a] <= c)
  }

  ghost predicate NoneBetween(free: Blocks, a: nat, q: nat) {
    forall c :: c in free ==> c <= a || q <= c
  }

  ghost predicate NoneAbove(free: Blocks, a: nat) {
    forall c :: c in free ==> c <= a
  }

  /** `q` follows `a` on the ring: the next address in use, or BASE after the last. */
  ghost predicate Follows(free: Blocks, a: nat, q: nat) {
    q in free && if q > a then NoneBetween(free, a, q) else q == BASE && NoneAbove(free, a)
  }

  /** The pointers form a ring through all free blocks in address order. */
  ghost predicate Ring(m: Mem, free: Blocks) {
    Headers(m, free) && forall a {:trigger Ptr(m, a)} :: a in free ==> Follows(free, a, Ptr(m, a))
  }

  /** No two free blocks touch. */
  ghost predicate Coalesced(free: Blocks) {
    forall a, c :: a in free && c in free && a < c ==> a + free[a] < c
  }

  /** Total size of a set of blocks. */
  ghost function Units(free: Blocks): int {
    if free == map[] then 0
    else
      var a :| a in free;
      free[a] + Units(free - {a})
  }

  lemma {:induction false} UnitsRemove(free: Blocks, a: nat)
    requires a in free
    ensures Units(free) == free[a] + Units(free - {a})
    decreases |free|
  {
    var c :| c in free && Units(free) == free[c] + Units(free - {c});
    if c != a {
      UnitsRemove(free - {c}, a);
      UnitsRemove(free - {a}, c);
      assert free - {c} - {a} == free - {a} - {c};
    }
  }

  lemma UnitsSet(free: Blocks, a: nat, n: nat)
    ensures Units(free[a := n]) == Units(free) + n - (if a in free then free[a] else 0)
  {
    UnitsRemove(free[a := n], a);
    if a in free {
      UnitsRemove(free, a);
      assert free[a := n] - {a} == free - {a};
    } else {
      assert free[a := n] - {a} == free;
    }
  }

  // ---- Linking in a block ----

  /** Headers after `b` was linked in after `p`. */
  function Linked(m: Mem, p: nat, b: nat): Mem {
    m.(ptr := m.ptr[b := Ptr(m, p)][p := b])
  }

  /** Block `b` of size `n` lies in the gap between `p` and its successor. */
  ghost predicate InGap(m: Mem, free: Blocks, p: nat, b: nat, n: nat) {
    && p in free && p + free[p] <= b && p < b
    && (Ptr(m, p) > p ==> b + n <= Ptr(m, p))
  }

  /** A gap of the ring holds no free block, also not the new one. */
  lemma GapIsFree(m: Mem, free: Blocks, p: nat, b: nat, n: nat)
    requires Ring(m, free) && n > 0 && InGap(m, free, p, b, n)
    ensures b !in free
    ensures forall c :: c in free ==> if c <= p then c + free[c] <= b else b + n <= c
  {
    assert Follows(free, p, Ptr(m, p));
  }

  lemma LinkHeaders(m: Mem, free: Blocks, p: nat, b: nat)
    requires Ring(m, free) && Size(m, b) > 0 && InGap(m, free, p, b, Size(m, b))
    ensures Headers(Linked(m, p, b), free[b := Size(m, b)])
  {
    GapIsFree(m, free, p, b, Size(m, b));
    hide Follows;
  }

  lemma LinkFollows(m: Mem, free: Blocks, p: nat, b: nat, a: nat)
    requires Ring(m, free) && Size(m, b) > 0 && InGap(m, free, p, b, Size(m, b))
    requires a in free || a == b
    ensures Follows(free[b := Size(m, b)], a, Ptr(Linked(m, p, b), a))
  {
    GapIsFree(m, free, p, b, Size(m, b));
    assert Follows(free, p, Ptr(m, p));
    if a != b && a != p {
      assert Follows(free, a, Ptr(m, a));
      if a < p {
        assert Ptr(m, a) <= p;
      }
    }
  }

  lemma LinkRing(m: Mem, free: Blocks, p: nat, b: nat)
    requires Ring(m, free) && Size(m, b) > 0 && InGap(m, free, p, b, Size(m, b))
    ensures b !in free && Ring(Linked(m, p, b), free[b := Size(m, b)])
  {
    GapIsFree(m, free, p, b, Size(m, b));
    LinkHeaders(m, free, p, b);
    var m', free' := Linked(m, p, b), free[b := Size(m, b)];
    forall a | a in free' ensures Follows(free', a, Ptr(m', a)) {
      LinkFollows(m, free, p, b, a);
    }
    hide Follows, Headers;
  }

  // ---- Merging a block with the one above it ----

  /** Headers after the block above `p` was merged into `p`. */
  function Merged(m: Mem, p: nat): Mem {
    var q := Ptr(m, p);
    Mem(m.ptr[p := Ptr(m, q)], m.size[p := Size(m, p) + Size(m, q)])
  }

  function MergedBlocks(free: Blocks, p: nat, q: nat): Blocks
    requires p in free && q in free
  {
    (free - {q})[p := free[p] + free[q]]
  }

  lemma MergeHeaders(m: Mem, free: Blocks, p: nat)
    requires Ring(m, free) && p in free && p < Ptr(m, p) && p + free[p] == Ptr(m, p)
    ensures p != BASE && Headers(Merged(m, p), MergedBlocks(free, p, Ptr(m, p)))
  {
    assert Follows(free, p, Ptr(m, p));
  }

  lemma MergeFollows(m: Mem, free: Blocks, p: nat, a: nat)
    requires Ring(m, free) && p in free && p < Ptr(m, p) && p + free[p] == Ptr(m, p)
    requires a in free && a != Ptr(m, p)
    ensures Follows(MergedBlocks(free, p, Ptr(m, p)), a, Ptr(Merged(m, p), a))
  {
    var q := Ptr(m, p);
    assert Follows(free, p, q) && Follows(free, q, Ptr(m, q)) && Follows(free, a, Ptr(m, a));
    if a != p {
      assert Ptr(m, a) != q;
    }
  }

  lemma MergeRing(m: Mem, free: Blocks, p: nat)
    requires Ring(m, free) && p in free && p < Ptr(m, p) && p + free[p] == Ptr(m, p)
    ensures p != BASE && Ring(Merged(m, p), MergedBlocks(free, p, Ptr(m, p)))
  {
    MergeHeaders(m, free, p);
    var m', free' := Merged(m, p), MergedBlocks(free, p, Ptr(m, p));
    forall a | a in free' ensures Follows(free', a, Ptr(m', a)) {
      MergeFollows(m, free, p, a);
    }
    hide Follows, Headers;
  }

  lemma MergeUnits(free: Blocks, p: nat, q: nat)
    requires p in free && q in free && p != q
    ensures Units(MergedBlocks(free, p, q)) == Units(free)
  {
    UnitsRemove(free, q);
    UnitsSet(free - {q}, p, free[p] + free[q]);
  }

  // ---- Unlinking and splitting a block ----

  /** Headers after the successor of `p` was unlinked. */
  function Unlinked(m: Mem, p: nat): Mem {
    m.(ptr := m.ptr[p := Ptr(m, Ptr(m, p))])
  }

  lemma UnlinkFollows(m: Mem, free: Blocks, p: nat, a: nat)
    requires Ring(m, free) && p in free && Ptr(m, p) > p && a in free && a != Ptr(m, p)
    ensures Follows(free - {Ptr(m, p)}, a, Ptr(Unlinked(m, p), a))
  {
    var q := Ptr(m, p);
    assert Follows(free, p, q) && Follows(free, q, Ptr(m, q)) && Follows(free, a, Ptr(m, a));
    if a != p {
      assert Ptr(m, a) != q;
    }
  }

  lemma UnlinkRing(m: Mem, free: Blocks, p: nat)
    requires Ring(m, free) && p in free && Ptr(m, p) != BASE
    ensures Ptr(m, p) in free && Ptr(m, p) > p && Ring(Unlinked(m, p), free - {Ptr(m, p)})
  {
    var q := Ptr(m, p);
    assert Follows(free, p, q);
    var m', free' := Unlinked(m, p), free - {q};
    assert Headers(m', free');
    hide Follows, Headers;
    forall a | a in free' ensures Follows(free', a, Ptr(m', a)) {
      UnlinkFollows(m, free, p, a);
    }
  }

  /** Headers after the top `n` units of block `p` were cut off as a block of their own. */
  function Split(m: Mem, p: nat, n: nat): Mem
    requires n <= Size(m, p)
  {
    m.(size := m.size[p := Size(m, p) - n][p + Size(m, p) - n := n])
  }

  lemma SplitRing(m: Mem, free: Blocks, p: nat, n: nat)
    requires Ring(m, free) && p in free && 0 < n < free[p]
    ensures p + free[p] - n !in free && Ring(Split(m, p, n), free[p := free[p] - n])
  {
    var b := p + free[p] - n;
    var m', free' := Split(m, p, n), free[p := free[p] - n];
    assert b !in free;
    forall a | a in free' ensures Follows(free', a, Ptr(m', a)) {
      assert Follows(free, a, Ptr(m, a));
    }
  }

  /** A header that is not on the ring may be written freely. */
  lemma OtherHeader(m: Mem, free: Blocks, b: nat, n: nat)
    requires Ring(m, free) && b !in free
    ensures Ring(m.(size := m.size[b := n]), free)
  {
    hide Follows;
    var m' := m.(size := m.size[b := n]);
    assert Headers(m', free);
    hide Headers;
    forall a | a in free ensures Follows(free, a, Ptr(m', a)) {
      assert Ptr(m', a) == Ptr(m, a);
    }
  }

  // ---- Which units a set of blocks covers ----

  ghost predicate Covers(bs: Blocks, u: int) {
    exists a :: a in bs && a <= u < a + bs[a]
  }

  lemma CoverAdd(bs: Blocks, b: nat, n: nat, u: int)
    requires b !in bs
    ensures Covers(bs[b := n], u) <==> Covers(bs, u) || b <= u < b + n
  {
    var bs' := bs[b := n];
    if b <= u < b + n {
      assert b in bs' && bs'[b] == n;
    }
    if Covers(bs, u) {
      var a :| a in bs && a <= u < a + bs[a];
      assert a in bs' && bs'[a] == bs[a];
    }
  }

  lemma CoverMerge(free: Blocks, p: nat, q: nat, u: int)
    requires p in free && q in free && p + free[p] == q && p < q
    ensures Covers(MergedBlocks(free, p, q), u) <==> Covers(free, u)
  {
    var bs := MergedBlocks(free, p, q);
    if Covers(free, u) {
      var a :| a in free && a <= u < a + free[a];
      if a == p || a == q {
        assert p in bs && p <= u < p + bs[p];
      } else {
        assert a in bs && bs[a] == free[a];
      }
    }
    if Covers(bs, u) {
      var a :| a in bs && a <= u < a + bs[a];
      if a == p {
        assert p <= u < p + free[p] || q <= u < q + free[q];
      } else {
        assert a in free;
      }
    }
  }

  /** Some block holds all of the units `b .. b + n`. */
  ghost predicate Holds(free: Blocks, b: nat, n: nat) {
    exists a :: a in free && a <= b && b + n <= a + free[a]
  }

  // ---- Freeing: link, merge upwards, merge downwards ----

  function MergeIfTouching(m: Mem, p: nat): Mem {
    if p + Size(m, p) == Ptr(m, p) then Merged(m, p) else m
  }

  ghost function BlocksIfTouching(m: Mem, free: Blocks, p: nat): Blocks {
    if p in free && Ptr(m, p) in free && p + Size(m, p) == Ptr(m, p) then MergedBlocks(free, p, Ptr(m, p)) else free
  }

  function FreedMem(m: Mem, p: nat, b: nat): Mem {
    MergeIfTouching(MergeIfTouching(Linked(m, p, b), b), p)
  }

  /** One conditional merge keeps the ring and the total size. */
  lemma MergeStepRing(m: Mem, free: Blocks, p: nat)
    requires Ring(m, free) && p in free && p != BASE
    ensures Ptr(m, p) in free
    ensures Ring(MergeIfTouching(m, p), BlocksIfTouching(m, free, p))
    ensures Units(BlocksIfTouching(m, free, p)) == Units(free)
  {
    var q := Ptr(m, p);
    assert Follows(free, p, q);
    hide Ring;
    if p + Size(m, p) == q {
      MergeRing(m, free, p);
      MergeUnits(free, p, q);
    }
  }

  /** It also keeps what is covered, and grows at most the block at `p`. */
  lemma MergeStepCovers(m: Mem, free: Blocks, p: nat, u: int)
    requires Ring(m, free) && p in free && p != BASE && Ptr(m, p) in free
    ensures var free' := BlocksIfTouching(m, free, p);
            && (Covers(free', u) <==> Covers(free, u))
            && p in free' && free'[p] >= free[p]
            && (forall c :: c in free' ==> c in free && (c != p ==> free'[c] == free[c]))
  {
    var q := Ptr(m, p);
    assert Size(m, p) == free[p];
    hide Ring;
    if p + Size(m, p) == q {
      CoverMerge(free, p, q, u);
    }
    hide Covers;
  }

  /** Afterwards the block at `p` touches no block above it. */
  lemma MergeStepApart(m: Mem, free: Blocks, p: nat)
    requires Ring(m, free) && p in free && p != BASE && Ptr(m, p) in free
    requires forall c :: c in free && Ptr(m, p) < c && p < Ptr(m, p) ==> Ptr(m, p) + free[Ptr(m, p)] < c
    ensures var free' := BlocksIfTouching(m, free, p);
            forall c :: c in free' && c > p ==> p + free'[p] < c
  {
    assert Follows(free, p, Ptr(m, p));
  }

  ghost function FreedBlocks(m: Mem, free: Blocks, p: nat, b: nat): Blocks {
    var m1, free1 := Linked(m, p, b), free[b := Size(m, b)];
    BlocksIfTouching(MergeIfTouching(m1, b), BlocksIfTouching(m1, free1, b), p)
  }

  lemma FreeLink(m: Mem, free: Blocks, p: nat, b: nat)
    requires Ring(m, free) && Coalesced(free) && b > BASE && Size(m, b) > 0 && InGap(m, free, p, b, Size(m, b))
    ensures var m1, free1 := Linked(m, p, b), free[b := Size(m, b)];
            && b !in free && Ring(m1, free1) && Units(free1) == Units(free) + Size(m, b)
            && Ptr(m1, p) == b && Ptr(m1, b) == Ptr(m, p) && Ptr(m, p) in free
  {
    LinkRing(m, free, p, b);
    UnitsSet(free, b, Size(m, b));
    assert Follows(free, p, Ptr(m, p));
    hide Ring, Follows, Units;
  }

  /** Linking `b` and merging it upwards. */
  lemma FreeUpper(m: Mem, free: Blocks, p: nat, b: nat, m2: Mem, free2: Blocks)
    requires Ring(m, free) && Coalesced(free) && b > BASE && Size(m, b) > 0 && InGap(m, free, p, b, Size(m, b))
    requires m2 == MergeIfTouching(Linked(m, p, b), b)
    requires free2 == BlocksIfTouching(Linked(m, p, b), free[b := Size(m, b)], b)
    ensures Ring(m2, free2) && Units(free2) == Units(free) + Size(m, b)
    ensures b in free2 && free2[b] >= Size(m, b)
    ensures forall c :: c in free2 && c > b ==> b + free2[b] < c
    ensures forall c :: c in free2 && c != b ==> c in free && free2[c] == free[c]
  {
    FreeLink(m, free, p, b);
    var m1, free1 := Linked(m, p, b), free[b := Size(m, b)];
    hide Ring, Follows, Units, Covers, MergeIfTouching, BlocksIfTouching, Ptr, Linked;
    MergeStepRing(m1, free1, b);
    MergeStepCovers(m1, free1, b, 0);
    MergeStepApart(m1, free1, b);
  }

  lemma FreeUpperLink(m: Mem, free: Blocks, p: nat, b: nat, m2: Mem, free2: Blocks)
    requires Ring(m, free) && Coalesced(free) && b > BASE && Size(m, b) > 0 && InGap(m, free, p, b, Size(m, b))
    requires m2 == MergeIfTouching(Linked(m, p, b), b)
    requires free2 == BlocksIfTouching(Linked(m, p, b), free[b := Size(m, b)], b)
    ensures p in free2 && Ptr(m2, p) == b
  {
    FreeLink(m, free, p, b);
    hide Ring, Units;
  }

  /** Merging downwards leaves a ring that is coalesced again. */
  lemma FreeLower(m: Mem, free: Blocks, p: nat, b: nat, m2: Mem, free2: Blocks)
    requires Ring(m, free) && Coalesced(free) && b > BASE && Size(m, b) > 0 && InGap(m, free, p, b, Size(m, b))
    requires m2 == MergeIfTouching(Linked(m, p, b), b)
    requires free2 == BlocksIfTouching(Linked(m, p, b), free[b := Size(m, b)], b)
    ensures var m3, free3 := MergeIfTouching(m2, p), BlocksIfTouching(m2, free2, p);
            && Ring(m3, free3) && Coalesced(free3) && p in free3
            && Units(free3) == Units(free) + Size(m, b)
  {
    FreeUpper(m, free, p, b, m2, free2);
    FreeUpperLink(m, free, p, b, m2, free2);
    GapIsFree(m, free, p, b, Size(m, b));
    hide Ptr, Units, Covers, Follows, Linked;
    if p == BASE {
      assert Size(m2, p) == 0;
    } else {
      hide Ring;
      MergeStepRing(m2, free2, p);
      MergeStepCovers(m2, free2, p, 0);
      MergeStepApart(m2, free2, p);
    }
    FreeLowerApart(free, free2, BlocksIfTouching(m2, free2, p), p, b);
  }

  lemma FreeLowerApart(free: Blocks, free2: Blocks, free3: Blocks, p: nat, b: nat)
    requires Coalesced(free) && p in free && p < b && (forall c :: c in free ==> c <= p || b < c)
    requires forall c :: c in free2 && c > b ==> b in free2 && b + free2[b] < c
    requires forall c :: c in free2 && c != b ==> c in free && free2[c] == free[c]
    requires forall c :: c in free3 ==> c in free2 && (c != p ==> free3[c] == free2[c])
    requires forall c :: c in free3 && c > p ==> p in free3 && p + free3[p] < c
    ensures Coalesced(free3)
  {
    forall a, c | a in free3 && c in free3 && a < c ensures a + free3[a] < c {
      if a != p && a != b && c == b {
        assert a + free[a] < p;
      }
    }
  }

  /** Freeing adds exactly the units of `b` to what is covered, and one block holds all of them. */
  lemma FreeCovers(m: Mem, free: Blocks, p: nat, b: nat, u: int)
    requires Ring(m, free) && Coalesced(free) && b > BASE && Size(m, b) > 0 && InGap(m, free, p, b, Size(m, b))
    ensures Covers(FreedBlocks(m, free, p, b), u) <==> Covers(free, u) || b <= u < b + Size(m, b)
    ensures Holds(FreedBlocks(m, free, p, b), b, Size(m, b))
  {
    var m1, free1 := Linked(m, p, b), free[b := Size(m, b)];
    var m2, free2 := MergeIfTouching(m1, b), BlocksIfTouching(m1, free1, b);
    FreeLink(m, free, p, b);
    CoverAdd(free, b, Size(m, b), u);
    FreeUpper(m, free, p, b, m2, free2);
    FreeUpperLink(m, free, p, b, m2, free2);
    MergeStepCovers(m1, free1, b, u);
    var free3 := BlocksIfTouching(m2, free2, p);
    assert Size(m2, p) == free2[p];
    hide Ring, Covers, Ptr, Size, Units, Linked, MergeIfTouching;
    if free3 == free2 {
      assert b in free3 && b + Size(m, b) <= b + free3[b];
    } else {
      CoverMerge(free2, p, b, u);
      assert p in free3 && p <= b && b + Size(m, b) <= p + free3[p];
    }
  }
}
