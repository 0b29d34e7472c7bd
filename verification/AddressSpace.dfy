/** What growing, copying and freeing an address space do to every page. */
module AddressSpace {
  import opened PageTables

  const USERFLAGS := 7     // PTE_W | PTE_U, and PTE_P

  /** A page in the kernel's hand gets new contents. */
  function WritePage(m: Phys, p: nat, g: Page): Phys
    requires p < |m.mem|
  {
    m.(mem := m.mem[p := g])
  }

  lemma WritePageInv(m: Phys, p: nat, g: Page)
    requires Inv(m) && p < |m.mem| && U(m, p) == Kernel && |g| == ENTRIES
    ensures var t := WritePage(m, p, g);
            && Inv(t) && SameMaps(m, t) && t.use == m.use && Bytes(t, p) == g
            && (forall q: int {:trigger Bytes(t, q)} :: q != p ==> Bytes(t, q) == Bytes(m, q))
  {
    hide MapInv, OwnInv, SameMaps, FreeUse, Chained;
    var t := WritePage(m, p, g);
    FreeUseSame(m, t);
    forall i | 0 <= i < |m.free| ensures W(t, m.free[i], 0) == W(m, m.free[i], 0) {
      FreeIsFree(m, i);
    }
    ChainSame(m, t);
    OtherPage(m, t, p);
    SameMapsKeep(m, t, p);
  }

  lemma FreeUseSame(m: Phys, t: Phys)
    requires FreeUse(m) && t.use == m.use && t.free == m.free
    ensures FreeUse(t)
  {
    assert forall q: int :: U(t, q) == U(m, q);
  }

  lemma FreeIsFree(m: Phys, i: nat)
    requires FreeUse(m) && i < |m.free|
    ensures U(m, m.free[i]) == Free
  {
  }

  // ---- Growing ----

  /** A new use, as part of directory `d`, of a page that was free. */
  predicate NewUse(u: Use, d: nat, lo: nat, a: nat) {
    (u.Table? && u.dir == d) || (u.User? && u.dir == d && lo <= u.va < a)
  }

  /** What new pages hold: zeros, or a copy of the pages of directory `dir` as `m` has them. */
  datatype Fill = Zeros | CopyOf(m: Phys, dir: nat)

  function FlagsOf(f: Fill, u: nat): int {
    match f
    case Zeros => USERFLAGS
    case CopyOf(m, e) => Flags(Pte(m, e, u))
  }

  function PageOf(f: Fill, u: nat): Page {
    match f
    case Zeros => Filled(0)
    case CopyOf(m, e) => Bytes(m, Ppn(Pte(m, e, u)))
  }

  /** Pages `lo` up to `a` of `d` are new pages filled as told and the other mappings are as before; `hand` is a page
      that has been taken and is not mapped yet, or -1. */
  ghost predicate Grown(m: Phys, t: Phys, d: nat, lo: nat, a: nat, hand: int, f: Fill) {
    && (forall e: int, u: nat {:trigger Pte(t, e, u)} :: U(m, e) == Dir && u < USERPAGES && !(e == d && lo <= u < a) ==>
          Pte(t, e, u) == Pte(m, e, u))
    && (forall u: nat {:trigger Pte(t, d, u)} :: lo <= u < a ==>
          && Present(Pte(t, d, u)) && Flags(Pte(t, d, u)) == FlagsOf(f, u)
          && Bytes(t, Ppn(Pte(t, d, u))) == PageOf(f, u) && U(m, Ppn(Pte(t, d, u))) == Free)
    && (forall q: int {:trigger U(t, q)} ::
          || U(t, q) == U(m, q)
          || (U(m, q) == Free && (NewUse(U(t, q), d, lo, a) || (q == hand && U(t, q) == Kernel))))
    && (forall q: int {:trigger Bytes(t, q)} :: U(m, q).User? ==> Bytes(t, q) == Bytes(m, q))
  }

  lemma GrownStart(m: Phys, d: nat, lo: nat, f: Fill)
    ensures Grown(m, m, d, lo, lo, -1, f)
  {
  }

  lemma NoPage(m: Phys)
    ensures U(m, -1) == Kernel
  {
  }

  /** Steps that only take a page or make a table. */
  lemma GrownOn(m: Phys, t: Phys, t': Phys, d: nat, lo: nat, a: nat, hand: int, hand': int, f: Fill)
    requires Inv(t) && U(m, d) == Dir && a <= USERPAGES && Grown(m, t, d, lo, a, hand, f) && DataKept(t, t')
    requires hand == -1 || hand' == hand
    requires forall e: int, u: nat {:trigger Pte(t', e, u)} :: U(t, e) == Dir && u < USERPAGES ==> Pte(t', e, u) == Pte(t, e, u)
    requires forall q: int {:trigger U(t', q)} ::
               || U(t', q) == U(t, q)
               || (U(t, q) == Free && ((U(t', q).Table? && U(t', q).dir == d) || (q == hand' && U(t', q) == Kernel)))
    ensures Grown(m, t', d, lo, a, hand', f)
  {
    hide W, U, Bytes, Pte, Ppn, Present, Flags, FlagsOf, PageOf, FreeInv, OwnInv;
    NoPage(m);
    assert U(t, d) == Dir;
    forall u: nat | lo <= u < a ensures U(t', Ppn(Pte(t, d, u))).User? {
      assert Present(Pte(t, d, u));
      assert U(t, Ppn(Pte(t, d, u))) == User(d, u);
      assert U(t', Ppn(Pte(t, d, u))) == U(t, Ppn(Pte(t, d, u)));
    }
  }

  lemma GrownTake(m: Phys, t: Phys, d: nat, lo: nat, a: nat, f: Fill)
    requires Inv(t) && U(m, d) == Dir && a <= USERPAGES && Grown(m, t, d, lo, a, -1, f) && |t.free| > 0
    ensures t.free[0] < |t.use| && Inv(TakePage(t)) && Grown(m, TakePage(t), d, lo, a, t.free[0], f)
    ensures U(TakePage(t), t.free[0]) == Kernel && U(t, t.free[0]) == Free
  {
    hide Inv, Grown, TakePage, U, Pte;
    TakeInv(t);
    InvParts(t);
    GrownOn(m, t, TakePage(t), d, lo, a, -1, t.free[0], f);
  }

  lemma InvParts(m: Phys)
    requires Inv(m)
    ensures Shape(m) && FreeInv(m) && MapInv(m) && OwnInv(m)
  {
  }

  lemma GrownFill(m: Phys, t: Phys, d: nat, lo: nat, a: nat, p: nat, g: Page, f: Fill)
    requires Inv(t) && U(m, d) == Dir && a <= USERPAGES && Grown(m, t, d, lo, a, p, f) && p < |t.mem| && U(t, p) == Kernel && U(m, p) == Free
    requires |g| == ENTRIES
    ensures var t' := WritePage(t, p, g); Inv(t') && Grown(m, t', d, lo, a, p, f) && Bytes(t', p) == g && U(t', p) == Kernel
  {
    hide W, U, Bytes, Pte, Ppn, Present, Flags, FlagsOf, PageOf, WritePage, FreeInv, OwnInv;
    WritePageInv(t, p, g);
    var t' := WritePage(t, p, g);
    UseSame(t, t');
    assert U(t, d) == Dir;
    forall u: nat | lo <= u < a ensures Ppn(Pte(t, d, u)) != p && Pte(t', d, u) == Pte(t, d, u) {
      assert Present(Pte(t, d, u));
      assert U(t, Ppn(Pte(t, d, u))) == User(d, u);
    }
  }

  lemma UseSame(m: Phys, t: Phys)
    requires t.use == m.use
    ensures forall q: int {:trigger U(t, q)} :: U(t, q) == U(m, q)
  {
  }

  /** mappages has to make a table. */
  lemma GrownTable(m: Phys, t: Phys, d: nat, lo: nat, a: nat, p: nat, x: nat, f: Fill)
    requires Inv(t) && U(m, d) == Dir && a <= USERPAGES && Grown(m, t, d, lo, a, p, f) && U(t, p) == Kernel && d < |t.mem|
    requires x < ENTRIES && !Present(W(t, d, x)) && |t.free| > 0
    ensures var (c, n) := (t.free[0], TakePage(t));
            && 0 < c < |t.mem| && Inv(n) && U(n, d) == Dir && U(n, c) == Kernel && !Present(W(n, d, x))
            && Inv(AddTable(n, d, x, c)) && Grown(m, AddTable(n, d, x, c), d, lo, a, p, f)
            && Bytes(AddTable(n, d, x, c), p) == Bytes(t, p) && U(AddTable(n, d, x, c), p) == Kernel
            && Present(W(AddTable(n, d, x, c), d, x)) && Ppn(W(AddTable(n, d, x, c), d, x)) == c
  {
    hide Inv, Grown, TakePage, U, Pte, W, Bytes, AddTable, Present, Ppn;
    TakeInv(t);
    InvParts(t);
    var c, n := t.free[0], TakePage(t);
    TakeSizes(t);
    assert U(t, d) == Dir by { GrownDir(m, t, d, lo, a, p, f); }
    InvParts(n);
    assert W(n, d, x) == W(t, d, x);
    AddTableInv(n, d, x, c);
    var t' := AddTable(n, d, x, c);
    DataKeptTwice(t, n, t');
    GrownOn(m, t, t', d, lo, a, p, p, f);
  }

  lemma TakeSizes(m: Phys)
    requires Shape(m) && FreeInv(m) && |m.free| > 0
    ensures 0 < m.free[0] < |m.use| == |m.mem| == |TakePage(m).mem|
  {
    assert U(m, m.free[0]) == Free;
  }

  lemma GrownDir(m: Phys, t: Phys, d: nat, lo: nat, a: nat, hand: int, f: Fill)
    requires Grown(m, t, d, lo, a, hand, f) && U(m, d) == Dir
    ensures U(t, d) == Dir
  {
  }

  lemma DataKeptTwice(m: Phys, n: Phys, t: Phys)
    requires DataKept(m, n) && DataKept(n, t)
    requires forall q: int {:trigger U(t, q)} :: U(t, q) == U(n, q) || U(t, q).Table?
    ensures DataKept(m, t)
  {
  }

  /** The entry of the next page. */
  lemma GrownMap(m: Phys, t: Phys, d: nat, lo: nat, a: nat, p: nat, flags: nat, f: Fill)
    requires Inv(t) && U(m, d) == Dir && lo <= a < USERPAGES && Grown(m, t, d, lo, a, p, f)
    requires Mappable(t, d, a) && !Present(Pte(t, d, a)) && 0 < p < |t.mem| && U(t, p) == Kernel && U(m, p) == Free
    requires Bytes(t, p) == PageOf(f, a) && flags == FlagsOf(f, a) && flags < PGSIZE && Present(flags)
    ensures 0 <= TableOf(t, d, a) < |t.mem|
    ensures Inv(MapPage(t, d, a, p, flags)) && Grown(m, MapPage(t, d, a, p, flags), d, lo, a + 1, -1, f)
  {
    hide W, U, Bytes, Pte, Ppn, Present, Flags, FlagsOf, PageOf, MapPage, TableOf, FreeInv, OwnInv, Entry;
    TableEntry(0);
    EntryParts(p, flags);
    MapPageInv(t, d, a, p, flags);
    var t' := MapPage(t, d, a, p, flags);
    assert U(t, d) == Dir;
    forall u: nat | lo <= u < a ensures U(t', Ppn(Pte(t, d, u))).User? {
      assert Present(Pte(t, d, u));
      assert U(t, Ppn(Pte(t, d, u))) == User(d, u);
    }
  }

  lemma OddFlags()
    ensures Present(USERFLAGS)
  {
  }

  // ---- Growing that fails ----

  /** Directory `d` maps what it mapped before, and all pages are where they were, but for new tables of `d` and a
      page in hand. */
  ghost predicate Restored(m: Phys, t: Phys, d: nat, hand: int) {
    && (forall e: int, u: nat {:trigger Pte(t, e, u)} :: U(m, e) == Dir && u < USERPAGES ==>
          (Present(Pte(t, e, u)) <==> Present(Pte(m, e, u))) && (Present(Pte(m, e, u)) ==> Pte(t, e, u) == Pte(m, e, u)))
    && (forall q: int {:trigger U(t, q)} ::
          || U(t, q) == U(m, q)
          || (U(m, q) == Free && ((U(t, q).Table? && U(t, q).dir == d) || (q == hand && U(t, q) == Kernel))))
    && (forall q: int {:trigger Bytes(t, q)} :: U(m, q).User? ==> Bytes(t, q) == Bytes(m, q))
  }

  /** deallocuvm after allocuvm has run out of memory. */
  lemma GrownUndone(m: Phys, t: Phys, d: nat, lo: nat, a: nat, hi: nat, hand: int, f: Fill)
    requires Inv(m) && Inv(t) && U(m, d) == Dir && lo <= a <= hi <= USERPAGES && Grown(m, t, d, lo, a, hand, f)
    requires forall u: nat :: lo <= u < hi ==> !Present(Pte(m, d, u))
    ensures Inv(Scan(t, d, lo, hi)) && Restored(m, Scan(t, d, lo, hi), d, hand)
  {
    hide W, U, Bytes, Pte, Ppn, Present, Flags, FlagsOf, PageOf, FreeInv, Scan;
    GrownDir(m, t, d, lo, a, hand, f);
    ScanShrinks(t, d, lo, hi);
    var t' := Scan(t, d, lo, hi);
    forall q: int | U(m, q).User? ensures !(U(m, q).dir == d && lo <= U(m, q).va < hi) {
      assert IsUser(m, q);
    }
  }

  /** kfree of the page in hand. */
  lemma RestoredFreed(m: Phys, t: Phys, d: nat, p: nat)
    requires Inv(t) && Restored(m, t, d, p) && 0 < p < |t.mem| && U(t, p) == Kernel && U(m, p) == Free
    ensures Inv(FreePage(t, p)) && Restored(m, FreePage(t, p), d, -1)
  {
    hide W, U, Bytes, Pte, Present, FreeInv, OwnInv, MapInv, FreePage;
    FreeKernelInv(t, p);
  }

  // ---- Freeing an address space ----

  predicate PartOf(u: Use, d: nat) { (u.Table? || u.User?) && u.dir == d }

  /** Directory `d` is no longer one; its tables are pages in the kernel's hand. */
  function Disown(m: Phys, d: nat): Phys {
    m.(use := seq(|m.use|, p requires 0 <= p < |m.use| => if p == d || (m.use[p].Table? && m.use[p].dir == d) then Kernel else m.use[p]))
  }

  /** On the way through freevm's loop: the tables of entries below `i` are free. */
  ghost predicate Teardown(m: Phys, t: Phys, d: nat, i: nat) {
    && |t.mem| == |m.mem|
    && (forall e: int, x: nat {:trigger W(t, e, x)} :: (U(m, e) == Dir && x < ENTRIES) ==> W(t, e, x) == W(m, e, x))
    && (forall e: int, u: nat {:trigger Pte(t, e, u)} :: U(m, e) == Dir && e != d && u < USERPAGES ==> Pte(t, e, u) == Pte(m, e, u))
    && (forall q: int {:trigger U(t, q)} :: U(t, q) ==
          if q == d then Kernel
          else if U(m, q).Table? && U(m, q).dir == d then (if U(m, q).idx < i then Free else Kernel)
          else U(m, q))
    && (forall q: int {:trigger Bytes(t, q)} :: U(m, q).User? ==> Bytes(t, q) == Bytes(m, q))
  }

  lemma DisownStarts(m: Phys, d: nat)
    requires Inv(m) && U(m, d) == Dir && forall v: nat :: v < USERPAGES ==> !Present(Pte(m, d, v))
    ensures Inv(Disown(m, d)) && Teardown(m, Disown(m, d), d, 0)
  {
    var t := Disown(m, d);
    SameWords(m, t);
    assert forall q: int :: U(t, q) == if q == d || (U(m, q).Table? && U(m, q).dir == d) then Kernel else U(m, q);
    DisownFree(m, t);
    hide W, U, Pte, Ppn, Present, Bytes, FreeInv;
    forall q | IsTable(t, q) ensures
      var e, y := U(t, q).dir, U(t, q).idx;
      U(t, e) == Dir && y < ENTRIES && Present(W(t, e, y)) && Ppn(W(t, e, y)) == q {
      assert IsTable(m, q);
    }
    forall q | IsUser(t, q) ensures
      var e, u := U(t, q).dir, U(t, q).va;
      U(t, e) == Dir && u < USERPAGES && Present(Pte(t, e, u)) && Ppn(Pte(t, e, u)) == q {
      assert IsUser(m, q);
    }
  }

  lemma SameWords(m: Phys, t: Phys)
    requires t.mem == m.mem
    ensures forall q: int, i: nat {:trigger W(t, q, i)} :: W(t, q, i) == W(m, q, i)
    ensures forall e: int, u: nat {:trigger Pte(t, e, u)} :: Pte(t, e, u) == Pte(m, e, u)
    ensures forall q: int {:trigger Bytes(t, q)} :: Bytes(t, q) == Bytes(m, q)
  {
  }

  lemma DisownFree(m: Phys, t: Phys)
    requires FreeInv(m) && t.free == m.free && t.mem == m.mem
    requires forall q: int {:trigger U(t, q)} :: U(t, q) == U(m, q) || (U(m, q) != Free && U(t, q) != Free)
    ensures FreeInv(t)
  {
    SameWords(m, t);
  }

  lemma TableInRange(m: Phys, p: int)
    requires Shape(m) && (U(m, p).Table? || U(m, p) == Dir)
    ensures 0 < p < |m.mem|
  {
  }

  lemma FreePageWords(m: Phys, p: nat)
    requires Shape(m) && p < |m.mem|
    ensures |FreePage(m, p).mem| == |m.mem|
    ensures forall q: int, i: nat {:trigger W(FreePage(m, p), q, i)} :: q != p ==> W(FreePage(m, p), q, i) == W(m, q, i)
  {
  }

  /** freevm's loop at a table. */
  lemma TeardownTable(m: Phys, t: Phys, d: nat, i: nat)
    requires Inv(m) && Inv(t) && U(m, d) == Dir && i < ENTRIES && Teardown(m, t, d, i) && Present(W(t, d, i))
    ensures var p := Ppn(W(t, d, i));
            0 < p < |t.mem| && Inv(FreePage(t, p)) && Teardown(m, FreePage(t, p), d, i + 1)
  {
    hide W, U, Pte, Ppn, Present, Bytes, FreeInv, FreePage;
    var p := Ppn(W(t, d, i));
    assert U(m, p) == Table(d, i);
    assert U(t, p) == Kernel;
    TableInRange(m, p);
    FreeKernelInv(t, p);
    var t' := FreePage(t, p);
    FreePageWords(t, p);
    forall q: int | U(m, q) == Table(d, i) ensures q == p {
      assert IsTable(m, q);
    }
  }

  lemma TeardownSkip(m: Phys, t: Phys, d: nat, i: nat)
    requires Inv(m) && U(m, d) == Dir && i < ENTRIES && Teardown(m, t, d, i) && !Present(W(t, d, i))
    ensures Teardown(m, t, d, i + 1)
  {
    hide W, U, Pte, Ppn, Present, Bytes, FreeInv;
    forall q: int ensures U(m, q) != Table(d, i) {
      assert U(m, q) == Table(d, i) ==> IsTable(m, q);
    }
  }

  /** Everything that belonged to directory `d`, and the directory, is free; nothing else has changed. */
  ghost predicate Gone(m: Phys, t: Phys, d: nat) {
    && (forall e: int, u: nat {:trigger Pte(t, e, u)} :: U(m, e) == Dir && e != d && u < USERPAGES ==> Pte(t, e, u) == Pte(m, e, u))
    && (forall q: int {:trigger U(t, q)} :: U(t, q) == if q == d || PartOf(U(m, q), d) then Free else U(m, q))
    && (forall q: int {:trigger Bytes(t, q)} :: U(m, q).User? && U(m, q).dir != d ==> Bytes(t, q) == Bytes(m, q))
  }

  /** freevm: the user pages, then the tables, then the directory. */
  lemma GoneAtLast(m: Phys, n: Phys, t: Phys, d: nat)
    requires Inv(m) && Inv(t) && U(m, d) == Dir
    requires n == Scan(m, d, 0, USERPAGES) && Teardown(n, t, d, ENTRIES)
    ensures 0 < d < |t.mem| && Inv(FreePage(t, d)) && Gone(m, FreePage(t, d), d)
  {
    hide W, U, Pte, Ppn, Present, Bytes, FreeInv, FreePage, Scan;
    ScanShrinks(m, d, 0, USERPAGES);
    assert U(n, d) == Dir;
    TableInRange(n, d);
    FreeKernelInv(t, d);
    forall q: int | U(n, q).Table? ensures U(n, q).idx < ENTRIES {
      assert IsTable(n, q);
    }
    forall q: int | U(m, q).User? ensures U(m, q).va < USERPAGES {
      assert IsUser(m, q);
    }
  }

  /** The copy is gone, with the pages of its directory; everything else is as it was, but for a lost page. */
  ghost predicate Dropped(m: Phys, t: Phys, c: nat, lost: int) {
    && (forall e: int, u: nat {:trigger Pte(t, e, u)} :: U(m, e) == Dir && e != c && u < USERPAGES ==> Pte(t, e, u) == Pte(m, e, u))
    && (forall q: int {:trigger U(t, q)} :: U(t, q) ==
          if q == lost then Kernel else if q == c || PartOf(U(m, q), c) then Free else U(m, q))
    && (forall q: int {:trigger Bytes(t, q)} :: U(m, q).User? && U(m, q).dir != c ==> Bytes(t, q) == Bytes(m, q))
  }

  lemma CopyDropped(m: Phys, t: Phys, t': Phys, c: nat, a: nat, hand: int, f: Fill)
    requires U(m, c) == Dir && Grown(m, t, c, 0, a, hand, f) && Gone(t, t', c)
    requires a <= USERPAGES && (hand == -1 || (U(t, hand) == Kernel && U(m, hand) == Free))
    ensures Dropped(m, t', c, hand)
  {
    NoPage(m);
    NoPage(t);
    hide W, U, Pte, Ppn, Present, Bytes, Flags, FlagsOf, PageOf;
  }
}
