/** The kernel's page allocator and address spaces: physical memory, changed in place.

    Sizes are in bytes, as in the source; `v` is a virtual page's number.  A page number 0 stands for the null
    pointer: page 0 is never given out. */
module Vm {
  import opened PageTables
  import opened AddressSpace

  /** The number of pages that `sz` bytes take. */
  function PageRoundUp(sz: nat): nat { (sz + PGSIZE - 1) / PGSIZE }

  lemma RoundUpBounds(sz: nat, a: nat)
    ensures a < PageRoundUp(sz) <==> a * PGSIZE < sz
  {
  }

  lemma UserBound(sz: nat)
    requires sz <= KERNBASE
    ensures PageRoundUp(sz) <= USERPAGES
  {
  }

  /** How mapping a new page ends; `hand` is a page that was taken and could not be mapped for want of a table. */
  datatype Added = Mapped | OutOfPages | OutOfTables(hand: nat)

  class Machine {
    var mem: seq<Page>
    var freelist: nat
    ghost var use: seq<Use>
    ghost var free: seq<nat>

    ghost function Now(): Phys
      reads this
    {
      Phys(mem, use, free)
    }

    ghost predicate HeadOk()
      reads this
    {
      freelist == if |free| > 0 then free[0] else 0
    }

    ghost predicate Valid()
      reads this
    {
      Inv(Now()) && HeadOk()
    }

    /** Physical memory before kinit: no page is free. */
    constructor (npages: nat)
      requires npages > 0
      ensures Valid() && |mem| == npages && free == [] && forall p: int :: U(Now(), p) == Kernel
    {
      mem := seq(npages, _ => Filled(0));
      use := seq(npages, _ => Kernel);
      free := [];
      freelist := 0;
    }

    /** freerange of the pages from `first` up to `last`. */
    method Freerange(first: nat, last: nat)
      requires Valid() && 0 < first && last <= |mem|
      requires forall p: int :: first <= p < last ==> U(Now(), p) == Kernel
      modifies this
      ensures Valid() && forall p: int {:trigger U(Now(), p)} :: U(Now(), p) == if first <= p < last then Free else U(old(Now()), p)
    {
      hide Inv, U, FreePage;
      var p := first;
      ghost var m := Now();
      while p + 1 <= last
        invariant Valid() && |mem| == |m.mem| && first <= p
        invariant forall q: int {:trigger U(Now(), q)} :: U(Now(), q) == if first <= q < p && q < last then Free else U(m, q)
      {
        InvParts(Now());
        FreeKernelInv(Now(), p);
        FreePageWords(Now(), p);
        Kfree(p);
        p := p + 1;
      }
    }

    /** kalloc: 0 exactly when no page is free. */
    method Kalloc() returns (p: nat)
      requires Valid()
      modifies this
      ensures Valid() && (p == 0 <==> |old(free)| == 0)
      ensures p == 0 ==> Now() == old(Now())
      ensures p != 0 ==> p == old(free)[0] && p < |old(use)| && Now() == TakePage(old(Now()))
    {
      hide MapInv, OwnInv;
      p := freelist;
      if p != 0 {
        TakeInv(Now());
        ChainHead(Now());
        freelist := mem[p][0];
        use := use[p := Kernel];
        free := free[1..];
      }
    }

    /** kfree of a page that is in use. */
    method Kfree(p: nat)
      requires Shape(Now()) && HeadOk() && p < |mem|
      modifies this
      ensures Now() == FreePage(old(Now()), p) && HeadOk()
    {
      mem := mem[p := Filled(JUNK)];
      mem := mem[p := mem[p][0 := freelist]];
      freelist := p;
      use := use[p := Free];
      free := [p] + free;
    }

    /** walkpgdir: the page that holds the entry of `v`, or 0 if there is no table and none can be made. */
    method Walkpgdir(d: nat, v: nat, alloc: bool) returns (b: nat)
      requires Valid() && U(Now(), d) == Dir && v < USERPAGES
      modifies this
      ensures Valid()
      ensures b == 0 ==> Now() == old(Now()) && !Present(W(Now(), d, Pdx(v))) && (alloc ==> free == [])
      ensures b != 0 ==> Mappable(Now(), d, v) && b == TableOf(Now(), d, v) && b < |mem|
      ensures b != 0 && Present(old(W(Now(), d, Pdx(v)))) ==> Now() == old(Now())
      ensures b != 0 && !Present(old(W(Now(), d, Pdx(v)))) ==>
                && alloc && |old(free)| > 0 && old(free)[0] < |old(use)| && Shape(TakePage(old(Now())))
                && d < |old(mem)| && Now() == AddTable(TakePage(old(Now())), d, Pdx(v), old(free)[0])
    {
      hide FreeInv, OwnInv, MapInv, TakePage, Entry, Present, Ppn;
      DirInRange(Now(), d);
      if Present(mem[d][Pdx(v)]) {
        EntryTable(Now(), d, v);
        return Ppn(mem[d][Pdx(v)]);
      }
      if !alloc {
        return 0;
      }
      ghost var m := Now();
      b := Kalloc();
      if b == 0 {
        return 0;
      }
      TakeForTable(m, d, v);
      mem := mem[b := Filled(0)];
      mem := mem[d := mem[d][Pdx(v) := Entry(b, TABLEFLAGS)]];
      use := use[b := Table(d, Pdx(v))];
      TableMade(m, d, v, Now());
    }

    /** Free the page of an entry that is there, then clear the entry. */
    method FreeEntry(d: nat, v: nat, b: nat)
      requires Valid() && Mappable(Now(), d, v) && b == TableOf(Now(), d, v) < |mem| && Present(Pte(Now(), d, v))
      modifies this
      ensures 0 < Ppn(Pte(old(Now()), d, v)) < |old(mem)| && Shape(old(Now()))
      ensures Valid() && Now() == Unmap(old(Now()), d, v)
    {
      hide FreeInv, OwnInv, MapInv, Present, Ppn, Mappable;
      ghost var m := Now();
      EntryThere(m, d, v);
      UnmapInv(m, d, v);
      Kfree(Ppn(mem[b][Ptx(v)]));
      FreePageShape(m, Ppn(m.mem[b][Ptx(v)]), b);
      mem := mem[b := mem[b][Ptx(v) := 0]];
    }

    /** deallocuvm frees what a page-by-page scan would, though it skips the ranges of missing tables. */
    method Deallocuvm(d: nat, oldsz: nat, newsz: nat) returns (r: nat)
      requires Valid() && U(Now(), d) == Dir && oldsz <= KERNBASE
      modifies this
      ensures Valid() && r == if newsz >= oldsz then oldsz else newsz
      ensures Now() == if newsz >= oldsz then old(Now()) else Scan(old(Now()), d, PageRoundUp(newsz), PageRoundUp(oldsz))
    {
      hide FreeInv, OwnInv, MapInv, Scan, Unmap, Present, Ppn, W, U, Pte, PageRoundUp, FreePage;
      if newsz >= oldsz {
        return oldsz;
      }
      UserBound(oldsz);
      var a := PageRoundUp(newsz);
      ghost var m, lo, hi := Now(), PageRoundUp(newsz), PageRoundUp(oldsz);
      RoundUpMonotone(newsz, oldsz);
      ScanNothing(m, d, lo);
      while a * PGSIZE < oldsz
        invariant lo <= a
        invariant Valid() && U(Now(), d) == Dir && Now() == Scan(m, d, lo, if a < hi then a else hi)
        decreases hi - a
      {
        RoundUpBounds(oldsz, a);
        ScanStep(m, d, lo, a);
        var b := Walkpgdir(d, a, false);
        if b == 0 {
          ghost var next := if (Pdx(a) + 1) * ENTRIES < hi then (Pdx(a) + 1) * ENTRIES else hi;
          SameTable(a, next);
          ScanSkip(m, d, lo, a, next);
          a := (Pdx(a) + 1) * ENTRIES;
        } else {
          ScanPresent(m, d, lo, a, b);
          if Present(mem[b][Ptx(a)]) {
            FreeEntry(d, a, b);
          }
          a := a + 1;
        }
        StillDir(m, d, lo, if a < hi then a else hi);
      }
      RoundUpBounds(oldsz, a);
      return newsz;
    }

    /** mappages of page `v` of `d`, the next to be mapped, onto page `p`, which is in hand; it fails when it needs a
        table and no page is free. */
    method Mappages(d: nat, v: nat, p: nat, flags: nat, ghost m: Phys, ghost lo: nat, ghost f: Fill) returns (ok: bool)
      requires Valid() && U(m, d) == Dir && lo <= v < USERPAGES && !Present(Pte(Now(), d, v))
      requires 0 < p < |mem| && U(Now(), p) == Kernel && U(m, p) == Free && Grown(m, Now(), d, lo, v, p, f)
      requires Bytes(Now(), p) == PageOf(f, v) && flags == FlagsOf(f, v) && flags < PGSIZE && Present(flags)
      modifies this
      ensures Valid() && |mem| == |old(mem)|
      ensures ok ==> Grown(m, Now(), d, lo, v + 1, -1, f) && TableUsed(old(Now()), Now(), d, Pdx(v))
      ensures !ok ==> Now() == old(Now()) && free == [] && !Present(W(Now(), d, Pdx(v)))
    {
      hide Grown, FreeInv, OwnInv, MapInv, Present, Ppn, U, Pte, W, Bytes, PageOf, FlagsOf, AddTable, TakePage, TableOf, TableUsed;
      GrownDir(m, Now(), d, lo, v, p, f);
      ghost var n := Now();
      var b := Walkpgdir(d, v, true);
      if b == 0 {
        return false;
      }
      WalkedOn(m, n, Now(), d, lo, v, p, f);
      ghost var t := Now();
      TableThere(t, d, v);
      GrownMap(m, t, d, lo, v, p, flags, f);
      mem := mem[b := mem[b][Ptx(v) := Entry(p, flags)]];
      use := use[p := User(d, v)];
      MapKeepsTables(n, t, d, v, p, flags);
      return true;
    }

    /** One round of allocuvm and copyuvm: a page filled with `g`, mapped as page `v` of `d`. */
    method AddPage(d: nat, v: nat, g: Page, flags: nat, ghost m: Phys, ghost lo: nat, ghost f: Fill) returns (r: Added)
      requires Valid() && U(m, d) == Dir && lo <= v < USERPAGES && !Present(Pte(Now(), d, v)) && Grown(m, Now(), d, lo, v, -1, f)
      requires g == PageOf(f, v) && |g| == ENTRIES && flags == FlagsOf(f, v) && flags < PGSIZE && Present(flags)
      modifies this
      ensures Valid() && |mem| == |old(mem)|
      ensures r.Mapped? ==> PageAndTable(old(Now()), Now(), d, Pdx(v)) && Grown(m, Now(), d, lo, v + 1, -1, f)
      ensures r.OutOfPages? ==> Now() == old(Now()) && free == []
      ensures r.OutOfTables? ==> |old(free)| == 1 && free == [] && !Present(W(old(Now()), d, Pdx(v)))
      ensures r.OutOfTables? ==>
                0 < r.hand < |mem| && U(Now(), r.hand) == Kernel && U(m, r.hand) == Free && Grown(m, Now(), d, lo, v, r.hand, f)
    {
      hide Grown, FreeInv, OwnInv, MapInv, Present, Ppn, U, Pte, W, Bytes, PageOf, FlagsOf, TakePage, TableUsed, PageAndTable;
      ghost var n := Now();
      var hand := Kalloc();
      if hand == 0 {
        return OutOfPages;
      }
      GrownTake(m, n, d, lo, v, f);
      Taken(m, n, d, lo, v, f);
      ghost var t := Now();
      GrownDir(m, t, d, lo, v, hand, f);
      GrownFill(m, t, d, lo, v, hand, g, f);
      StillMissing(t, d, v, hand, g);
      mem := mem[hand := g];
      ghost var w := Now();
      var ok := Mappages(d, v, hand, flags, m, lo, f);
      GrownDir(m, n, d, lo, v, -1, f);
      TakenTables(n, w, Now(), d, Pdx(v), g);
      return if ok then Mapped else OutOfTables(hand);
    }

    /** allocuvm: exactly if there are enough free pages for the new pages and the tables they lack, the new pages are
        mapped and zero; otherwise nothing is mapped that was not, every new user page is free again, and the result
        is 0. */
    method Allocuvm(d: nat, oldsz: nat, newsz: nat) returns (r: nat)
      requires Valid() && U(Now(), d) == Dir
      requires forall u: nat :: PageRoundUp(oldsz) <= u < USERPAGES ==> !Present(Pte(Now(), d, u))
      modifies this
      ensures Valid()
      ensures newsz >= KERNBASE ==> r == 0 && Now() == old(Now())
      ensures newsz < KERNBASE && newsz < oldsz ==> r == oldsz && Now() == old(Now())
      ensures oldsz <= newsz < KERNBASE ==>
                if |old(free)| >= Cost(old(Now()), d, PageRoundUp(oldsz), PageRoundUp(newsz)) then
                  r == newsz && Grown(old(Now()), Now(), d, PageRoundUp(oldsz), PageRoundUp(newsz), -1, Zeros)
                else
                  r == 0 && Restored(old(Now()), Now(), d, -1)
    {
      hide Grown, Restored, FreeInv, OwnInv, MapInv, Present, Ppn, U, Pte, W, Bytes, PageRoundUp, Scan, FreePage;
      hide Cost, TablesFor, PageAndTable, Pdx, Ptx;
      if newsz >= KERNBASE {
        return 0;
      }
      if newsz < oldsz {
        return oldsz;
      }
      ghost var m, lo, hi := Now(), PageRoundUp(oldsz), PageRoundUp(newsz);
      UserBound(newsz);
      RoundUpMonotone(oldsz, newsz);
      GrownStart(m, d, lo, Zeros);
      NoCost(m, d, lo);
      var a := PageRoundUp(oldsz);
      while a * PGSIZE < newsz
        invariant lo <= a <= hi && Valid() && Grown(m, Now(), d, lo, a, -1, Zeros)
        invariant |free| == |m.free| - Cost(m, d, lo, a) && TablesFor(m, Now(), d, lo, a)
        decreases hi - a
      {
        RoundUpBounds(newsz, a);
        NextCost(m, Now(), d, lo, a);
        CostGrows(m, d, lo, a + 1, hi);
        ghost var n := Now();
        NotYetMapped(m, Now(), d, lo, a, Zeros);
        OddFlags();
        var k := AddPage(d, a, Filled(0), USERFLAGS, m, lo, Zeros);
        if !k.Mapped? {
          ghost var hand := if k.OutOfTables? then k.hand else -1;
          GrownUndone(m, Now(), d, lo, a, hi, hand, Zeros);
          GrownDir(m, Now(), d, lo, a, hand, Zeros);
          ghost var t := Now();
          var _ := Deallocuvm(d, newsz, oldsz);
          SameScan(t, d, lo, hi, oldsz, newsz);
          if k.OutOfTables? {
            HandKept(t, d, lo, hi, k.hand);
            RestoredFreed(m, Now(), d, k.hand);
            Kfree(k.hand);
          }
          return 0;
        }
        CostPaid(m, n, Now(), d, lo, a);
        a := a + 1;
      }
      RoundUpBounds(newsz, a);
      return newsz;
    }

    /** freevm returns each user page, each table and the directory to the free list, once, and nothing else. */
    method Freevm(d: nat)
      requires Valid() && U(Now(), d) == Dir
      modifies this
      ensures Valid() && Gone(old(Now()), Now(), d)
    {
      hide FreeInv, OwnInv, MapInv, Present, Ppn, U, Pte, W, Bytes, Scan, FreePage, Teardown, Disown, Gone, PageRoundUp;
      ghost var m := Now();
      WholeUser();
      var _ := Deallocuvm(d, KERNBASE, 0);
      ghost var n := Now();
      EmptyAfterScan(m, d);
      DisownStarts(n, d);
      use := Disown(n, d).use;
      DisownIs(n, d);
      for i := 0 to ENTRIES
        invariant Valid() && Teardown(n, Now(), d, i)
      {
        DirWord(n, Now(), d, i);
        if Present(mem[d][i]) {
          TeardownTable(n, Now(), d, i);
          Kfree(Ppn(mem[d][i]));
        } else {
          TeardownSkip(n, Now(), d, i);
        }
      }
      GoneAtLast(m, n, Now(), d);
      Kfree(d);
    }

    /** copyuvm into the directory `c` that setupkvm made, or 0: pages with the same contents and flags; or the new
        directory is gone again, and everything is as before but for `lost`, a page that failed to be mapped and that
        nobody frees.  That happens exactly when memory runs out at a table. */
    method Copyuvm(s: nat, sz: nat, c: nat) returns (r: nat, ghost lost: int)
      requires Valid() && U(Now(), s) == Dir && sz <= KERNBASE
      requires forall u: nat :: u < PageRoundUp(sz) ==> Present(Pte(Now(), s, u))
      requires c != 0 ==> U(Now(), c) == Dir && c != s && forall x: nat :: x < USERTABLES ==> !Present(W(Now(), c, x))
      modifies this
      ensures Valid() && (r == 0 || r == c)
      ensures c != 0 ==> (r == c <==> |old(free)| >= PagesFor(PageRoundUp(sz)))
      ensures c != 0 ==> (lost != -1 <==> r == 0 && |old(free)| % (ENTRIES + 1) == 1)
      ensures c == 0 ==> Now() == old(Now())
      ensures r != 0 ==> Grown(old(Now()), Now(), c, 0, PageRoundUp(sz), -1, CopyOf(old(Now()), s))
      ensures r == 0 && c != 0 ==> Dropped(old(Now()), Now(), c, lost) && (lost == -1 || U(old(Now()), lost) == Free)
    {
      hide Grown, Dropped, Gone, FreeInv, OwnInv, MapInv, Present, Ppn, U, Pte, W, Bytes, PageRoundUp, PagesFor, TablesMade, PageAndTable, Pdx, Ptx;
      NothingMade(Now(), c);
      lost := -1;
      if c == 0 {
        return 0, -1;
      }
      ghost var m, f := Now(), CopyOf(Now(), s);
      UserBound(sz);
      GrownStart(m, c, 0, f);
      var i := 0;
      while i * PGSIZE < sz
        invariant i <= PageRoundUp(sz) && Valid() && Grown(m, Now(), c, 0, i, -1, f)
        invariant |free| == |m.free| - PagesFor(i) && TablesMade(Now(), c, i)
        decreases PageRoundUp(sz) - i
      {
        RoundUpBounds(sz, i);
        NextPage(Now(), c, i);
        PagesMonotone(i + 1, PageRoundUp(sz));
        NoTableNoPage(m, c, i);
        NotYetMapped(m, Now(), c, 0, i, f);
        ToCopy(m, Now(), s, c, i);
        var b := Ppn(mem[s][Pdx(i)]);
        var w := mem[b][Ptx(i)];
        ghost var n := Now();
        var k := AddPage(c, i, mem[Ppn(w)], Flags(w), m, 0, f);
        if !k.Mapped? {
          lost := if k.OutOfTables? then k.hand else -1;
          ghost var t := Now();
          GrownDir(m, t, c, 0, i, lost, f);
          CopyRunsOut(i, |m.free|, k.OutOfTables?);
          Freevm(c);
          CopyDropped(m, t, Now(), c, i, lost, f);
          return 0, lost;
        }
        TableAdded(n, Now(), c, i);
        i := i + 1;
      }
      RoundUpBounds(sz, i);
      return c, -1;
    }

    /** With one free page, copying anything takes it for the first page, finds no page for its table, and loses it. */
    method CopyWithOnePage(s: nat, sz: nat, c: nat) returns (ghost lost: int)
      requires Valid() && U(Now(), s) == Dir && 0 < sz <= KERNBASE && |free| == 1
      requires forall u: nat :: u < PageRoundUp(sz) ==> Present(Pte(Now(), s, u))
      requires c != 0 && U(Now(), c) == Dir && c != s && forall x: nat :: x < USERTABLES ==> !Present(W(Now(), c, x))
      modifies this
      ensures Valid() && lost == old(free)[0] && U(old(Now()), lost) == Free && U(Now(), lost) == Kernel
    {
      hide Grown, Inv, Present, U, Pte, W, Gone;
      RoundUpBounds(sz, 0);
      PagesMonotone(1, PageRoundUp(sz));
      ghost var m := Now();
      var r;
      r, lost := Copyuvm(s, sz, c);
      OnlyFree(m, lost);
    }
  }

  // ---- Counting what growing takes ----

  /** Page `v` is the first from `lo` on that needs a table which is not there. */
  ghost predicate LacksTable(m: Phys, d: nat, lo: nat, v: nat) {
    !Present(W(m, d, Pdx(v))) && (v <= lo || Pdx(v - 1) != Pdx(v))
  }

  /** Free pages that mapping pages `lo` up to `a` of `d` takes. */
  ghost function Cost(m: Phys, d: nat, lo: nat, a: nat): nat {
    if a <= lo then 0 else Cost(m, d, lo, a - 1) + if LacksTable(m, d, lo, a - 1) then 2 else 1
  }

  /** The tables of pages `lo` up to `a` are there, besides those that were. */
  ghost predicate TablesFor(m: Phys, t: Phys, d: nat, lo: nat, a: nat) {
    forall x: nat {:trigger W(t, d, x)} :: x < ENTRIES ==>
      (Present(W(t, d, x)) <==> Present(W(m, d, x)) || (lo < a && Pdx(lo) <= x <= Pdx(a - 1)))
  }

  lemma NoCost(m: Phys, d: nat, lo: nat)
    ensures Cost(m, d, lo, lo) == 0 && TablesFor(m, m, d, lo, lo)
  {
  }

  lemma NextCost(m: Phys, t: Phys, d: nat, lo: nat, a: nat)
    requires lo <= a < USERPAGES && TablesFor(m, t, d, lo, a)
    ensures Cost(m, d, lo, a + 1) == Cost(m, d, lo, a) + if Present(W(t, d, Pdx(a))) then 1 else 2
  {
    hide W, Present;
    if a > lo {
      PdxGrows(a - 1);
    }
    PdxMonotone(lo, a);
  }

  lemma PdxGrows(v: nat)
    ensures Pdx(v) <= Pdx(v + 1) <= Pdx(v) + 1
  {
  }

  lemma PdxMonotone(u: nat, v: nat)
    requires u <= v
    ensures Pdx(u) <= Pdx(v) && (v < USERPAGES ==> Pdx(v) < ENTRIES)
  {
  }

  lemma {:induction false} CostGrows(m: Phys, d: nat, lo: nat, a: nat, hi: nat)
    requires a <= hi
    ensures Cost(m, d, lo, a) <= Cost(m, d, lo, hi)
    decreases hi - a
  {
    if a < hi {
      CostGrows(m, d, lo, a, hi - 1);
    }
  }

  /** A page that was mapped has taken what it costs. */
  lemma CostPaid(m: Phys, n: Phys, t: Phys, d: nat, lo: nat, a: nat)
    requires lo <= a < USERPAGES && TablesFor(m, n, d, lo, a) && PageAndTable(n, t, d, Pdx(a))
    ensures |t.free| == |n.free| - (Cost(m, d, lo, a + 1) - Cost(m, d, lo, a)) && TablesFor(m, t, d, lo, a + 1)
  {
    hide W, Present, Cost;
    NextCost(m, n, d, lo, a);
    if a > lo {
      PdxGrows(a - 1);
    }
    PdxMonotone(lo, a);
  }

  // ---- Counting what a copy takes ----

  const USERTABLES := ENTRIES / 2

  /** The pages that the first `i` pages of a copy take, with their tables. */
  function PagesFor(i: nat): nat { i + (i + ENTRIES - 1) / ENTRIES }

  ghost predicate TablesMade(t: Phys, c: nat, i: nat) {
    forall x: nat {:trigger W(t, c, x)} :: x < USERTABLES ==> (Present(W(t, c, x)) <==> x < PagesFor(i) - i)
  }

  lemma NothingMade(t: Phys, c: nat)
    ensures PagesFor(0) == 0
    ensures (forall x: nat :: x < USERTABLES ==> !Present(W(t, c, x))) ==> TablesMade(t, c, 0)
  {
  }

  lemma NextPage(t: Phys, c: nat, i: nat)
    requires i < USERPAGES && TablesMade(t, c, i)
    ensures PagesFor(i + 1) == PagesFor(i) + if Present(W(t, c, Pdx(i))) then 1 else 2
    ensures !Present(W(t, c, Pdx(i))) <==> i % ENTRIES == 0
  {
    assert Pdx(i) < USERTABLES;
  }

  lemma PagesMonotone(i: nat, n: nat)
    requires i <= n
    ensures PagesFor(i) <= PagesFor(n)
  {
  }

  lemma TableAdded(n: Phys, t: Phys, c: nat, i: nat)
    requires i < USERPAGES && TablesMade(n, c, i) && PageAndTable(n, t, c, Pdx(i))
    ensures |t.free| == |n.free| - (PagesFor(i + 1) - PagesFor(i)) && TablesMade(t, c, i + 1)
  {
    NextPage(n, c, i);
    assert Pdx(i) < USERTABLES;
  }

  lemma NoTableNoPage(m: Phys, c: nat, i: nat)
    requires i < USERPAGES && forall x: nat :: x < USERTABLES ==> !Present(W(m, c, x))
    ensures !Present(Pte(m, c, i))
  {
    assert Pdx(i) < USERTABLES;
  }

  /** Memory runs out at a page or at a table. */
  lemma CopyRunsOut(i: nat, f: nat, table: bool)
    requires if table then f == PagesFor(i) + 1 && i % ENTRIES == 0 else f == PagesFor(i)
    ensures table <==> f % (ENTRIES + 1) == 1
  {
    var k, j := i / ENTRIES, i % ENTRIES;
    assert i == ENTRIES * k + j;
    assert PagesFor(i) == (ENTRIES + 1) * k + if j == 0 then 0 else j + 1;
  }

  lemma OnlyFree(m: Phys, p: int)
    requires Inv(m) && |m.free| == 1 && U(m, p) == Free
    ensures p == m.free[0]
  {
  }

  lemma WholeUser()
    ensures PageRoundUp(KERNBASE) == USERPAGES && PageRoundUp(0) == 0
  {
  }

  lemma EmptyAfterScan(m: Phys, d: nat)
    requires Inv(m) && U(m, d) == Dir
    ensures var t := Scan(m, d, 0, USERPAGES); Inv(t) && U(t, d) == Dir && forall v: nat :: v < USERPAGES ==> !Present(Pte(t, d, v))
  {
    ScanShrinks(m, d, 0, USERPAGES);
  }

  lemma DisownIs(m: Phys, d: nat)
    ensures Disown(m, d).mem == m.mem && Disown(m, d).free == m.free
  {
  }

  lemma DirWord(m: Phys, t: Phys, d: nat, i: nat)
    requires Inv(m) && Shape(t) && U(m, d) == Dir && i < ENTRIES && Teardown(m, t, d, i)
    ensures d < |t.mem| && |t.mem[d]| == ENTRIES && t.mem[d][i] == W(t, d, i)
  {
  }

  /** The entry and page that copyuvm reads are the original's. */
  lemma ToCopy(m: Phys, t: Phys, s: nat, c: nat, i: nat)
    requires Inv(m) && Inv(t) && U(m, s) == Dir && U(m, c) == Dir && s != c && i < USERPAGES && Present(Pte(m, s, i))
    requires Grown(m, t, c, 0, i, -1, CopyOf(m, s))
    ensures s < |t.mem| && |t.mem[s]| == ENTRIES && Pdx(i) < ENTRIES && 0 <= Ppn(t.mem[s][Pdx(i)]) < |t.mem|
    ensures var b := Ppn(t.mem[s][Pdx(i)]); |t.mem[b]| == ENTRIES && t.mem[b][Ptx(i)] == Pte(m, s, i)
    ensures 0 <= Ppn(Pte(m, s, i)) < |t.mem| && t.mem[Ppn(Pte(m, s, i))] == PageOf(CopyOf(m, s), i)
    ensures |PageOf(CopyOf(m, s), i)| == ENTRIES && Present(Flags(Pte(m, s, i))) && 0 <= Flags(Pte(m, s, i)) < PGSIZE
  {
    assert Pte(t, s, i) == Pte(m, s, i);
    OriginalDir(m, t, s, c, i);
    PresentIsMappable(t, s, i);
    TableThere(t, s, i);
    PresentIsMappable(m, s, i);
    FlagsKeepPresent(Pte(m, s, i));
    assert Bytes(t, Ppn(Pte(m, s, i))) == Bytes(m, Ppn(Pte(m, s, i)));
  }

  lemma OriginalDir(m: Phys, t: Phys, s: nat, c: nat, i: nat)
    requires Grown(m, t, c, 0, i, -1, CopyOf(m, s)) && U(m, s) == Dir
    ensures U(t, s) == Dir
  {
  }

  lemma MapKeepsTables(n: Phys, t: Phys, d: nat, v: nat, p: nat, flags: nat)
    requires Inv(t) && Mappable(t, d, v) && !Present(Pte(t, d, v)) && U(t, d) == Dir
    requires 0 < p < |t.mem| && U(t, p) == Kernel && flags < PGSIZE && Present(flags) && TableUsed(n, t, d, Pdx(v))
    ensures 0 <= TableOf(t, d, v) < |t.mem| && TableUsed(n, MapPage(t, d, v, p, flags), d, Pdx(v))
  {
    MapPageInv(t, d, v, p, flags);
  }

  /** Taking a page and filling it changes no directory. */
  lemma TakenTables(n: Phys, w: Phys, t: Phys, d: nat, x: nat, g: Page)
    requires Inv(n) && |n.free| > 0 && U(n, d) == Dir && |g| == ENTRIES && x < ENTRIES && n.free[0] < |n.use| == |n.mem|
    requires w == WritePage(TakePage(n), n.free[0], g)
    ensures |w.free| == |n.free| - 1 && W(w, d, x) == W(n, d, x)
    ensures TableUsed(w, t, d, x) ==> PageAndTable(n, t, d, x)
  {
    TakeInv(n);
    WritePageInv(TakePage(n), n.free[0], g);
    hide W, U, Pte, Present, TakePage, WritePage;
    assert forall y: nat :: y < ENTRIES ==> W(w, d, y) == W(n, d, y);
  }

  lemma Taken(m: Phys, n: Phys, d: nat, lo: nat, v: nat, f: Fill)
    requires Inv(n) && Grown(m, n, d, lo, v, -1, f) && |n.free| > 0
    ensures U(m, n.free[0]) == Free && 0 < n.free[0] < |n.use| == |n.mem| == |TakePage(n).mem|
    ensures U(m, d) == Dir && v < USERPAGES ==> Pte(TakePage(n), d, v) == Pte(n, d, v)
  {
    assert U(n, n.free[0]) == Free;
    NoPage(n);
    TakeInv(n);
    if U(m, d) == Dir {
      GrownDir(m, n, d, lo, v, -1, f);
    }
  }

  lemma StillMissing(t: Phys, d: nat, v: nat, p: nat, g: Page)
    requires Inv(t) && p < |t.mem| && U(t, p) == Kernel && |g| == ENTRIES && U(t, d) == Dir && v < USERPAGES
    ensures Pte(WritePage(t, p, g), d, v) == Pte(t, d, v)
  {
    WritePageInv(t, p, g);
  }

  /** The next page is not mapped yet. */
  lemma NotYetMapped(m: Phys, t: Phys, d: nat, lo: nat, a: nat, f: Fill)
    requires Grown(m, t, d, lo, a, -1, f) && U(m, d) == Dir && a < USERPAGES && !Present(Pte(m, d, a))
    ensures !Present(Pte(t, d, a))
  {
  }

  lemma SameScan(t: Phys, d: nat, lo: nat, hi: nat, oldsz: nat, newsz: nat)
    requires Shape(t) && lo == PageRoundUp(oldsz) && hi == PageRoundUp(newsz) && oldsz <= newsz
    ensures oldsz == newsz ==> Scan(t, d, lo, hi) == t
  {
  }

  lemma HandKept(t: Phys, d: nat, lo: nat, hi: nat, p: nat)
    requires Inv(t) && U(t, d) == Dir && lo <= hi <= USERPAGES && 0 < p < |t.mem| && U(t, p) == Kernel
    ensures var t' := Scan(t, d, lo, hi); p < |t'.mem| && U(t', p) == Kernel
  {
    ScanShrinks(t, d, lo, hi);
    ScanSize(t, d, lo, hi);
  }

  lemma {:induction false} ScanSize(t: Phys, d: nat, lo: nat, hi: nat)
    requires Shape(t)
    ensures |Scan(t, d, lo, hi).mem| == |t.mem|
  {
    if lo < hi {
      ScanSize(t, d, lo, hi - 1);
    }
  }

  /** Entry `x` of the directory is there afterwards, and a free page was used if it was not there before. */
  ghost predicate TableUsed(n: Phys, t: Phys, d: nat, x: nat) {
    && |t.free| == |n.free| - (if Present(W(n, d, x)) then 0 else 1)
    && forall y: nat {:trigger W(t, d, y)} :: y < ENTRIES ==> (Present(W(t, d, y)) <==> Present(W(n, d, y)) || y == x)
  }

  /** The same, and another page was used. */
  ghost predicate PageAndTable(n: Phys, t: Phys, d: nat, x: nat) {
    && |t.free| == |n.free| - (if Present(W(n, d, x)) then 1 else 2)
    && forall y: nat {:trigger W(t, d, y)} :: y < ENTRIES ==> (Present(W(t, d, y)) <==> Present(W(n, d, y)) || y == x)
  }

  /** What walkpgdir does on the way. */
  lemma WalkedOn(m: Phys, n: Phys, t: Phys, d: nat, lo: nat, v: nat, p: nat, f: Fill)
    requires Inv(n) && U(m, d) == Dir && U(n, d) == Dir && lo <= v < USERPAGES && !Present(Pte(n, d, v))
    requires 0 < p < |n.mem| && U(n, p) == Kernel && Grown(m, n, d, lo, v, p, f)
    requires Present(W(n, d, Pdx(v))) ==> t == n
    requires !Present(W(n, d, Pdx(v))) ==>
               && |n.free| > 0 && n.free[0] < |n.use| && Shape(TakePage(n)) && d < |n.mem|
               && t == AddTable(TakePage(n), d, Pdx(v), n.free[0])
    ensures Inv(t) && |t.mem| == |n.mem| && U(t, p) == Kernel && Grown(m, t, d, lo, v, p, f)
    ensures Bytes(t, p) == Bytes(n, p) && !Present(Pte(t, d, v)) && TableUsed(n, t, d, Pdx(v))
  {
    if !Present(W(n, d, Pdx(v))) {
      TakeSizes(n);
      AddTableWords(TakePage(n), d, Pdx(v), n.free[0]);
      GrownTable(m, n, d, lo, v, p, Pdx(v), f);
      TakeInv(n);
      AddTableInv(TakePage(n), d, Pdx(v), n.free[0]);
    }
  }

  lemma FlagsKeepPresent(w: int)
    requires Present(w)
    ensures 0 <= Flags(w) < PGSIZE && Present(Flags(w))
  {
    var q, f := w / PGSIZE, Flags(w);
    assert w == 2 * (2048 * q) + f;
    EvenPart(2048 * q, f);
  }

  /** A successful copy has equal contents and flags, on pages that the original does not map. */
  lemma CopyIsSeparate(m: Phys, t: Phys, s: nat, c: nat, n: nat, u: nat, v: nat)
    requires Inv(m) && Inv(t) && U(m, s) == Dir && U(m, c) == Dir && s != c && u < n <= USERPAGES && v < USERPAGES
    requires Grown(m, t, c, 0, n, -1, CopyOf(m, s)) && Present(Pte(m, s, u))
    ensures Present(Pte(t, c, u)) && Present(Pte(t, s, u)) && Flags(Pte(t, c, u)) == Flags(Pte(t, s, u))
    ensures Bytes(t, Ppn(Pte(t, c, u))) == Bytes(t, Ppn(Pte(t, s, u)))
    ensures Present(Pte(t, s, v)) ==> Ppn(Pte(t, c, u)) != Ppn(Pte(t, s, v))
  {
    hide W, U, Bytes, Pte, Ppn, Present, Flags, FreeInv, OwnInv;
    assert U(m, Ppn(Pte(m, s, u))) == User(s, u);
    assert Pte(t, s, v) == Pte(m, s, v);
    assert U(t, s) == Dir && U(t, c) == Dir;
    assert U(t, Ppn(Pte(t, c, u))) == User(c, u);
  }

  lemma EntryThere(m: Phys, d: nat, v: nat)
    requires Inv(m) && Mappable(m, d, v) && Present(Pte(m, d, v))
    ensures 0 <= TableOf(m, d, v) < |m.mem| && |m.mem[TableOf(m, d, v)]| == ENTRIES
    ensures Pte(m, d, v) == m.mem[TableOf(m, d, v)][Ptx(v)]
    ensures 0 < Ppn(Pte(m, d, v)) < |m.mem| && Ppn(Pte(m, d, v)) != TableOf(m, d, v)
  {
    TableThere(m, d, v);
    PresentIsMappable(m, d, v);
  }

  lemma FreePageShape(m: Phys, p: nat, b: nat)
    requires Shape(m) && p < |m.mem| && b < |m.mem| && b != p
    ensures |FreePage(m, p).mem| == |m.mem| && FreePage(m, p).mem[b] == m.mem[b]
  {
  }

  lemma RoundUpMonotone(x: nat, y: nat)
    requires x <= y
    ensures PageRoundUp(x) <= PageRoundUp(y)
  {
  }

  lemma ScanNothing(m: Phys, d: nat, lo: nat)
    requires Shape(m)
    ensures Scan(m, d, lo, lo) == m
  {
  }

  /** The rest of a table's range. */
  lemma SameTable(a: nat, b: nat)
    requires a <= b <= (Pdx(a) + 1) * ENTRIES
    ensures forall v: nat :: a <= v < b ==> Pdx(v) == Pdx(a)
    ensures a < (Pdx(a) + 1) * ENTRIES
  {
  }

  lemma StillDir(m: Phys, d: nat, lo: nat, a: nat)
    requires Inv(m) && U(m, d) == Dir && lo <= a <= USERPAGES
    ensures U(Scan(m, d, lo, a), d) == Dir && Inv(Scan(m, d, lo, a))
  {
    ScanShrinks(m, d, lo, a);
  }

  lemma ScanPresent(m: Phys, d: nat, lo: nat, a: nat, b: nat)
    requires Inv(m) && U(m, d) == Dir && lo <= a < USERPAGES
    requires var t := Scan(m, d, lo, a); Mappable(t, d, a) && b == TableOf(t, d, a)
    ensures var t := Scan(m, d, lo, a);
            b < |t.mem| && |t.mem[b]| == ENTRIES && Pte(t, d, a) == t.mem[b][Ptx(a)]
  {
    ScanStep(m, d, lo, a);
    var t := Scan(m, d, lo, a);
    TableThere(t, d, a);
  }

  lemma DirInRange(m: Phys, d: nat)
    requires Shape(m) && U(m, d) == Dir
    ensures 0 < d < |m.mem| && |m.mem[d]| == ENTRIES
  {
  }

  lemma EntryTable(m: Phys, d: nat, v: nat)
    requires Inv(m) && U(m, d) == Dir && v < USERPAGES && Present(W(m, d, Pdx(v)))
    ensures Mappable(m, d, v) && 0 < TableOf(m, d, v) < |m.mem|
  {
  }

  lemma TakeForTable(m: Phys, d: nat, v: nat)
    requires Inv(m) && U(m, d) == Dir && v < USERPAGES && !Present(W(m, d, Pdx(v))) && |m.free| > 0
    ensures var (n, p) := (TakePage(m), m.free[0]);
            && 0 < p < |m.use| && p != d && d < |m.mem| == |n.mem| && Inv(n) && U(n, p) == Kernel && U(n, d) == Dir
            && Inv(AddTable(n, d, Pdx(v), p)) && Present(W(AddTable(n, d, Pdx(v), p), d, Pdx(v)))
            && Ppn(W(AddTable(n, d, Pdx(v), p), d, Pdx(v))) == p && U(AddTable(n, d, Pdx(v), p), d) == Dir
  {
    TakeInv(m);
    assert U(m, m.free[0]) == Free;
    AddTableInv(TakePage(m), d, Pdx(v), m.free[0]);
  }

  lemma TableMade(m: Phys, d: nat, v: nat, t: Phys)
    requires Inv(m) && U(m, d) == Dir && v < USERPAGES && !Present(W(m, d, Pdx(v))) && |m.free| > 0
    requires m.free[0] < |m.use| && Shape(TakePage(m)) && d < |m.mem|
    requires t == AddTable(TakePage(m), d, Pdx(v), m.free[0])
    ensures Inv(t) && Mappable(t, d, v) && TableOf(t, d, v) == m.free[0]
  {
    TakeForTable(m, d, v);
  }

  /** The first word of the first free page is the next one. */
  lemma ChainHead(m: Phys)
    requires Shape(m) && FreeInv(m) && |m.free| > 0
    ensures 0 < m.free[0] < |m.mem| == |m.use| && |m.mem[m.free[0]]| == ENTRIES
    ensures m.mem[m.free[0]][0] == if |m.free| > 1 then m.free[1] else 0
  {
    assert U(m, m.free[0]) == Free;
  }
}
