/** Physical pages and two-level page tables, in words.

    A virtual or physical page is named by its number, its address divided by the page size.  The entries are those of
    32-bit paging: the page's number in the upper 20 bits, flags in the lower 12, bit 0 for "present". */
module PageTables {
  const PGSIZE := 4096
  const ENTRIES := 1024                // of a page directory or table
  const KERNBASE := 0x8000_0000
  const USERPAGES := 0x8_0000          // user pages are below KERNBASE
  const TABLEFLAGS := 7                // PTE_P | PTE_W | PTE_U
  const JUNK := 0x0101_0101

  type Page = seq<int>

  /** What a page is in use for.  Kernel pages are those in nobody's address space. */
  datatype Use = Free | Kernel | Dir | Table(dir: nat, idx: nat) | User(dir: nat, va: nat)

  datatype Phys = Phys(mem: seq<Page>, use: seq<Use>, free: seq<nat>)

  // ---- Words ----

  predicate Present(w: int) { w % 2 == 1 }

  function Ppn(w: int): int { w / PGSIZE }

  function Flags(w: int): int { w % PGSIZE }

  function Entry(p: nat, flags: nat): int { p * PGSIZE + flags }

  lemma EntryParts(p: nat, flags: nat)
    requires flags < PGSIZE
    ensures Ppn(Entry(p, flags)) == p && Flags(Entry(p, flags)) == flags
    ensures Present(Entry(p, flags)) <==> Present(flags)
  {
    EntryDivides(p, flags);
    assert Entry(p, flags) == 2 * (p * 2048) + flags;
    EvenPart(p * 2048, flags);
  }

  lemma EntryDivides(p: nat, flags: nat)
    requires flags < PGSIZE
    ensures (p * PGSIZE + flags) / PGSIZE == p && (p * PGSIZE + flags) % PGSIZE == flags
  {
  }

  lemma EvenPart(a: int, b: int)
    ensures (2 * a + b) % 2 == b % 2
  {
  }

  function Pdx(v: nat): (x: nat)
    ensures v < USERPAGES ==> x < ENTRIES / 2
  {
    v / ENTRIES
  }

  function Ptx(v: nat): (x: nat)
    ensures x < ENTRIES
  {
    v % ENTRIES
  }

  lemma SplitVa(u: nat, v: nat)
    ensures Pdx(u) == Pdx(v) && Ptx(u) == Ptx(v) ==> u == v
  {
  }

  // ---- Reading ----

  /** Word `i` of page `p`, or 0 outside. */
  function W(m: Phys, p: int, i: int): int {
    if 0 <= p < |m.mem| && 0 <= i < |m.mem[p]| then m.mem[p][i] else 0
  }

  function Bytes(m: Phys, p: int): Page { if 0 <= p < |m.mem| then m.mem[p] else [] }

  function U(m: Phys, p: int): Use { if 0 <= p < |m.use| then m.use[p] else Kernel }

  /** The page table entry of page `v` in directory `d`; 0 where there is no table. */
  function Pte(m: Phys, d: int, v: nat): int {
    if Present(W(m, d, Pdx(v))) then W(m, Ppn(W(m, d, Pdx(v))), Ptx(v)) else 0
  }

  // ---- The invariant ----

  ghost predicate Shape(m: Phys) {
    && 0 < |m.mem| == |m.use| && m.use[0] == Kernel
    && (forall p :: 0 <= p < |m.mem| ==> |m.mem[p]| == ENTRIES)
  }

  /** Each free page is on the free list once. */
  ghost predicate FreeUse(m: Phys) {
    && (forall i :: 0 <= i < |m.free| ==> U(m, m.free[i]) == Free && 0 < m.free[i])
    && (forall i, j :: 0 <= i < j < |m.free| ==> m.free[i] != m.free[j])
    && (forall p :: U(m, p) == Free ==> p in m.free)
  }

  /** The free list is linked through the first words of its pages. */
  ghost predicate Chained(m: Phys) {
    && (forall i, j {:trigger m.free[i], m.free[j]} :: 0 <= i < j < |m.free| && j == i + 1 ==> W(m, m.free[i], 0) == m.free[j])
    && (|m.free| > 0 ==> W(m, m.free[|m.free| - 1], 0) == 0)
  }

  ghost predicate FreeInv(m: Phys) { FreeUse(m) && Chained(m) }

  /** What the entries of a directory say is what the pages are in use for, so nothing is shared. */
  ghost predicate MapInv(m: Phys) {
    && (forall d: int, x: nat {:trigger W(m, d, x)} :: U(m, d) == Dir && x < ENTRIES && Present(W(m, d, x)) ==>
          U(m, Ppn(W(m, d, x))) == Table(d, x))
    && (forall d: int, v: nat {:trigger Pte(m, d, v)} :: U(m, d) == Dir && v < USERPAGES && Present(Pte(m, d, v)) ==>
          U(m, Ppn(Pte(m, d, v))) == User(d, v))
  }

  predicate IsTable(m: Phys, p: int) { U(m, p).Table? }

  predicate IsUser(m: Phys, p: int) { U(m, p).User? }

  /** Pages in use as tables or for users are where the directories find them, so nothing is lost. */
  ghost predicate OwnInv(m: Phys) {
    && (forall p {:trigger IsTable(m, p)} :: IsTable(m, p) ==>
          var d, x := U(m, p).dir, U(m, p).idx;
          U(m, d) == Dir && x < ENTRIES && Present(W(m, d, x)) && Ppn(W(m, d, x)) == p)
    && (forall p {:trigger IsUser(m, p)} :: IsUser(m, p) ==>
          var d, v := U(m, p).dir, U(m, p).va;
          U(m, d) == Dir && v < USERPAGES && Present(Pte(m, d, v)) && Ppn(Pte(m, d, v)) == p)
  }

  ghost predicate Inv(m: Phys) { Shape(m) && FreeInv(m) && MapInv(m) && OwnInv(m) }

  // ---- Writing ----

  function SetWord(m: Phys, p: nat, i: nat, w: int): Phys
    requires p < |m.mem| && i < |m.mem[p]|
  {
    m.(mem := m.mem[p := m.mem[p][i := w]])
  }

  function SetUse(m: Phys, p: nat, u: Use): Phys
    requires p < |m.use|
  {
    m.(use := m.use[p := u])
  }

  function Filled(w: int): (g: Page)
    ensures |g| == ENTRIES
  {
    seq(ENTRIES, _ => w)
  }

  /** kalloc takes the first free page. */
  function TakePage(m: Phys): Phys
    requires |m.free| > 0 && m.free[0] < |m.use|
  {
    SetUse(m, m.free[0], Kernel).(free := m.free[1..])
  }

  /** kfree fills the page with junk and puts it first. */
  function FreePage(m: Phys, p: nat): Phys
    requires p < |m.mem| == |m.use|
  {
    var head := if |m.free| > 0 then m.free[0] else 0;
    Phys(m.mem[p := Filled(JUNK)[0 := head]], m.use[p := Free], [p] + m.free)
  }

  lemma ChainPop(m: Phys, t: Phys)
    requires Chained(m) && |m.free| > 0 && t.free == m.free[1..] && t.mem == m.mem
    ensures Chained(t)
  {
    assert forall i :: 0 <= i < |t.free| ==> t.free[i] == m.free[i + 1];
    assert forall p: int, i :: W(t, p, i) == W(m, p, i);
    hide W;
  }

  lemma ChainPush(m: Phys, t: Phys, p: nat)
    requires Chained(m) && t.free == [p] + m.free
    requires W(t, p, 0) == if |m.free| > 0 then m.free[0] else 0
    requires forall i :: 0 <= i < |m.free| ==> W(t, m.free[i], 0) == W(m, m.free[i], 0)
    ensures Chained(t)
  {
    hide W;
    assert t.free[0] == p && |t.free| == |m.free| + 1;
    assert forall i :: 0 < i < |t.free| ==> t.free[i] == m.free[i - 1];
    forall i, j | 0 <= i < j < |t.free| && j == i + 1 ensures W(t, t.free[i], 0) == t.free[j] {
      assert i > 0 ==> t.free[i] == m.free[i - 1] && t.free[j] == m.free[j - 1];
    }
  }

  lemma TakeFree(m: Phys)
    requires Shape(m) && FreeInv(m) && |m.free| > 0
    ensures m.free[0] < |m.use| && Shape(TakePage(m)) && FreeInv(TakePage(m))
  {
    hide Chained;
    assert U(m, m.free[0]) == Free;
    var t := TakePage(m);
    ChainPop(m, t);
    assert forall i :: 0 <= i < |t.free| ==> t.free[i] == m.free[i + 1];
    forall p | U(t, p) == Free ensures p in t.free {
      assert U(m, p) == Free && p in m.free;
    }
  }

  lemma FreePageUse(m: Phys, p: nat)
    requires Shape(m) && FreeUse(m) && 0 < p < |m.mem| && U(m, p) != Free
    ensures Shape(FreePage(m, p)) && FreeUse(FreePage(m, p))
  {
    var t := FreePage(m, p);
    assert forall i :: 0 < i < |t.free| ==> t.free[i] == m.free[i - 1];
    forall q | U(t, q) == Free ensures q in t.free {
      assert q != p ==> U(m, q) == Free && q in m.free;
    }
  }

  lemma FreePageChain(m: Phys, p: nat)
    requires Shape(m) && FreeUse(m) && Chained(m) && 0 < p < |m.mem| && U(m, p) != Free
    ensures Chained(FreePage(m, p))
  {
    hide Chained;
    var t := FreePage(m, p);
    forall i | 0 <= i < |m.free| ensures W(t, m.free[i], 0) == W(m, m.free[i], 0) {
      assert U(m, m.free[i]) == Free;
    }
    ChainPush(m, t, p);
  }

  // ---- What a step leaves alone ----

  /** Every directory reads the same. */
  ghost predicate SameMaps(m: Phys, t: Phys) {
    && (forall d: int, x: nat {:trigger W(t, d, x)} :: U(m, d) == Dir && x < ENTRIES ==> W(t, d, x) == W(m, d, x))
    && (forall d: int, v: nat {:trigger Pte(t, d, v)} :: U(m, d) == Dir && v < USERPAGES ==> Pte(t, d, v) == Pte(m, d, v))
  }

  /** Pages that users or the kernel hold keep their contents. */
  ghost predicate DataKept(m: Phys, t: Phys) {
    forall q: int {:trigger Bytes(t, q)} :: U(t, q).User? || U(t, q) == Kernel ==> Bytes(t, q) == Bytes(m, q)
  }

  /** Only page `p` is written, and it is not a directory or table. */
  lemma OtherPage(m: Phys, t: Phys, p: nat)
    requires MapInv(m) && U(m, p) != Dir && !U(m, p).Table?
    requires forall q: int, i: nat {:trigger W(t, q, i)} :: q != p ==> W(t, q, i) == W(m, q, i)
    ensures SameMaps(m, t)
  {
    hide W, U;
    forall d: int, v: nat | U(m, d) == Dir && v < USERPAGES ensures Pte(t, d, v) == Pte(m, d, v) {
      var w := W(m, d, Pdx(v));
      assert W(t, d, Pdx(v)) == w;
      assert Present(w) ==> U(m, Ppn(w)) == Table(d, Pdx(v));
    }
  }

  /** A page changes hands between the free list and the kernel. */
  lemma SameMapsKeep(m: Phys, t: Phys, p: nat)
    requires MapInv(m) && OwnInv(m) && SameMaps(m, t)
    requires U(m, p) == Free || U(m, p) == Kernel
    requires U(t, p) == Free || U(t, p) == Kernel
    requires forall q: int :: q != p ==> U(t, q) == U(m, q)
    ensures MapInv(t) && OwnInv(t)
  {
    hide W, U, Pte;
    forall q | IsTable(t, q) ensures
      var d, x := U(t, q).dir, U(t, q).idx;
      U(t, d) == Dir && x < ENTRIES && Present(W(t, d, x)) && Ppn(W(t, d, x)) == q {
      assert IsTable(m, q);
    }
    forall q | IsUser(t, q) ensures
      var d, v := U(t, q).dir, U(t, q).va;
      U(t, d) == Dir && v < USERPAGES && Present(Pte(t, d, v)) && Ppn(Pte(t, d, v)) == q {
      assert IsUser(m, q);
    }
  }

  /** kalloc. */
  lemma TakeInv(m: Phys)
    requires Inv(m) && |m.free| > 0
    ensures m.free[0] < |m.use| && Inv(TakePage(m)) && SameMaps(m, TakePage(m)) && U(m, m.free[0]) == Free
    ensures DataKept(m, TakePage(m))
    ensures forall q: int :: U(TakePage(m), q) == if q == m.free[0] then Kernel else U(m, q)
  {
    hide MapInv, OwnInv, SameMaps;
    TakeFree(m);
    var t, p := TakePage(m), m.free[0];
    assert U(m, p) == Free;
    OtherPage(m, t, p);
    SameMapsKeep(m, t, p);
  }

  /** kfree of a page in nobody's address space. */
  lemma FreeKernelInv(m: Phys, p: nat)
    requires Inv(m) && 0 < p < |m.mem| && U(m, p) == Kernel
    ensures Inv(FreePage(m, p)) && SameMaps(m, FreePage(m, p))
    ensures DataKept(m, FreePage(m, p))
    ensures forall q: int :: U(FreePage(m, p), q) == if q == p then Free else U(m, q)
  {
    hide MapInv, OwnInv, SameMaps, FreeUse, Chained;
    FreePageUse(m, p);
    FreePageChain(m, p);
    var t := FreePage(m, p);
    OtherPage(m, t, p);
    SameMapsKeep(m, t, p);
  }

  // ---- Tables and entries ----

  /** walkpgdir makes a table of the page in hand. */
  function AddTable(m: Phys, d: nat, x: nat, p: nat): Phys
    requires Shape(m) && d < |m.mem| && p < |m.mem| && x < ENTRIES
  {
    SetUse(SetWord(m.(mem := m.mem[p := Filled(0)]), d, x, Entry(p, TABLEFLAGS)), p, Table(d, x))
  }

  lemma AddTableWords(m: Phys, d: nat, x: nat, p: nat)
    requires Shape(m) && d < |m.mem| && 0 < p < |m.mem| && x < ENTRIES && p != d
    ensures var t := AddTable(m, d, x, p);
            && Shape(t) && t.free == m.free && (U(m, d) == Dir ==> DataKept(m, t))
            && (forall q: int, i: nat {:trigger W(t, q, i)} ::
                  W(t, q, i) == if q == p then 0 else if q == d && i == x then Entry(p, TABLEFLAGS) else W(m, q, i))
            && (forall q: int {:trigger U(t, q)} :: U(t, q) == if q == p then Table(d, x) else U(m, q))
  {
  }

  /** A new table changes no mapping. */
  lemma AddTableMaps(m: Phys, t: Phys, d: nat, x: nat, p: nat)
    requires MapInv(m) && U(m, d) == Dir && U(m, p) == Kernel && x < ENTRIES && !Present(W(m, d, x))
    requires forall q: int, i: nat {:trigger W(t, q, i)} ::
               W(t, q, i) == if q == p then 0 else if q == d && i == x then Entry(p, TABLEFLAGS) else W(m, q, i)
    ensures forall e: int, v: nat {:trigger Pte(t, e, v)} :: U(m, e) == Dir && v < USERPAGES ==> Pte(t, e, v) == Pte(m, e, v)
  {
    hide W, U, Entry, Ppn, Present;
    TableEntry(p);
    forall e: int, v: nat | U(m, e) == Dir && v < USERPAGES ensures Pte(t, e, v) == Pte(m, e, v) {
      var w := W(m, e, Pdx(v));
      assert e == d && Pdx(v) == x ==> W(t, e, Pdx(v)) == Entry(p, TABLEFLAGS);
      assert !(e == d && Pdx(v) == x) ==> W(t, e, Pdx(v)) == w;
      assert Present(w) ==> U(m, Ppn(w)) == Table(e, Pdx(v));
    }
  }

  lemma TableEntry(p: nat)
    ensures Present(Entry(p, TABLEFLAGS)) && Ppn(Entry(p, TABLEFLAGS)) == p && !Present(0)
  {
    EntryParts(p, TABLEFLAGS);
  }

  lemma AddTableInv(m: Phys, d: nat, x: nat, p: nat)
    requires Inv(m) && U(m, d) == Dir && U(m, p) == Kernel && d < |m.mem| && 0 < p < |m.mem|
    requires x < ENTRIES && !Present(W(m, d, x))
    ensures var t := AddTable(m, d, x, p);
            && Inv(t) && DataKept(m, t) && Present(W(t, d, x)) && Ppn(W(t, d, x)) == p
            && (forall e: int, v: nat {:trigger Pte(t, e, v)} :: U(m, e) == Dir && v < USERPAGES ==> Pte(t, e, v) == Pte(m, e, v))
            && (forall q: int {:trigger U(t, q)} :: U(t, q) == if q == p then Table(d, x) else U(m, q))
  {
    hide W, U, Bytes, Entry, Ppn, Present, AddTable, Pte;
    var t := AddTable(m, d, x, p);
    AddTableWords(m, d, x, p);
    TableEntry(p);
    AddTableMaps(m, t, d, x, p);
    forall q | IsTable(t, q) ensures
      var e, y := U(t, q).dir, U(t, q).idx;
      U(t, e) == Dir && y < ENTRIES && Present(W(t, e, y)) && Ppn(W(t, e, y)) == q {
      assert q != p ==> IsTable(m, q);
    }
    forall q | IsUser(t, q) ensures
      var e, v := U(t, q).dir, U(t, q).va;
      U(t, e) == Dir && v < USERPAGES && Present(Pte(t, e, v)) && Ppn(Pte(t, e, v)) == q {
      assert IsUser(m, q);
    }
  }

  /** The page that holds the entry of page `v`. */
  function TableOf(m: Phys, d: int, v: nat): int { Ppn(W(m, d, Pdx(v))) }

  /** Every directory reads the same but for the entry of page `v` in `d`, which is `w`. */
  ghost predicate OneEntry(m: Phys, t: Phys, d: int, v: nat, w: int) {
    && (forall e: int, x: nat {:trigger W(t, e, x)} :: U(m, e) == Dir && x < ENTRIES ==> W(t, e, x) == W(m, e, x))
    && (forall e: int, u: nat {:trigger Pte(t, e, u)} :: U(m, e) == Dir && u < USERPAGES ==>
          Pte(t, e, u) == if e == d && u == v then w else Pte(m, e, u))
  }

  /** Writing the table entry of `v` in `d`, and perhaps a page that is not a directory or table. */
  lemma EntryWritten(m: Phys, t: Phys, d: nat, v: nat, w: int, p: int)
    requires MapInv(m) && U(m, d) == Dir && v < USERPAGES && Present(W(m, d, Pdx(v)))
    requires U(m, p) != Dir && !U(m, p).Table?
    requires forall q: int, i: nat {:trigger W(t, q, i)} :: q != p ==>
               W(t, q, i) == if q == TableOf(m, d, v) && i == Ptx(v) then w else W(m, q, i)
    ensures OneEntry(m, t, d, v, w)
  {
    hide W, U, Ppn, Present, Pdx, Ptx;
    assert U(m, TableOf(m, d, v)) == Table(d, Pdx(v));
    forall e: int, u: nat | U(m, e) == Dir && u < USERPAGES ensures Pte(t, e, u) == if e == d && u == v then w else Pte(m, e, u) {
      var c := W(m, e, Pdx(u));
      assert W(t, e, Pdx(u)) == c;
      assert Present(c) ==> U(m, Ppn(c)) == Table(e, Pdx(u));
      SplitVa(u, v);
    }
  }

  /** mappages of one page of a user's address space. */
  function MapPage(m: Phys, d: nat, v: nat, p: nat, flags: nat): Phys
    requires Shape(m) && 0 <= TableOf(m, d, v) < |m.mem| && p < |m.mem|
  {
    SetUse(SetWord(m, TableOf(m, d, v), Ptx(v), Entry(p, flags)), p, User(d, v))
  }

  ghost predicate Mappable(m: Phys, d: nat, v: nat) {
    U(m, d) == Dir && v < USERPAGES && Present(W(m, d, Pdx(v)))
  }

  lemma TableThere(m: Phys, d: nat, v: nat)
    requires Shape(m) && MapInv(m) && Mappable(m, d, v)
    ensures 0 <= TableOf(m, d, v) < |m.mem| && U(m, TableOf(m, d, v)) == Table(d, Pdx(v))
    ensures Pte(m, d, v) == m.mem[TableOf(m, d, v)][Ptx(v)]
  {
  }

  lemma ChainKept(m: Phys, p: nat, i: nat, w: int)
    requires Shape(m) && FreeUse(m) && Chained(m) && p < |m.mem| && i < ENTRIES && U(m, p) != Free
    ensures Chained(SetWord(m, p, i, w))
  {
    var t := SetWord(m, p, i, w);
    forall k | 0 <= k < |m.free| ensures W(t, m.free[k], 0) == W(m, m.free[k], 0) {
      assert U(m, m.free[k]) == Free;
    }
  }

  lemma ChainSame(m: Phys, t: Phys)
    requires Chained(m) && t.free == m.free
    requires forall i :: 0 <= i < |m.free| ==> W(t, m.free[i], 0) == W(m, m.free[i], 0)
    ensures Chained(t)
  {
  }

  lemma MapPageWords(m: Phys, d: nat, v: nat, p: nat, flags: nat)
    requires Shape(m) && MapInv(m) && FreeInv(m) && Mappable(m, d, v) && 0 < p < |m.mem| && U(m, p) == Kernel
    ensures 0 <= TableOf(m, d, v) < |m.mem|
    ensures var t := MapPage(m, d, v, p, flags);
            && Shape(t) && FreeInv(t) && DataKept(m, t)
            && (forall q: int, i: nat {:trigger W(t, q, i)} ::
                  W(t, q, i) == if q == TableOf(m, d, v) && i == Ptx(v) then Entry(p, flags) else W(m, q, i))
            && (forall q: int {:trigger U(t, q)} :: U(t, q) == if q == p then User(d, v) else U(m, q))
  {
    hide OwnInv, Chained;
    TableThere(m, d, v);
    var t := MapPage(m, d, v, p, flags);
    forall i | 0 <= i < |m.free| ensures W(t, m.free[i], 0) == W(m, m.free[i], 0) {
      assert U(m, m.free[i]) == Free;
    }
    ChainSame(m, t);
  }

  lemma MapPageInv(m: Phys, d: nat, v: nat, p: nat, flags: nat)
    requires Inv(m) && Mappable(m, d, v) && !Present(Pte(m, d, v))
    requires 0 < p < |m.mem| && U(m, p) == Kernel && flags < PGSIZE && Present(flags)
    ensures 0 <= TableOf(m, d, v) < |m.mem|
    ensures var t := MapPage(m, d, v, p, flags);
            && Inv(t) && DataKept(m, t) && OneEntry(m, t, d, v, Entry(p, flags))
            && (forall q: int {:trigger U(t, q)} :: U(t, q) == if q == p then User(d, v) else U(m, q))
  {
    hide W, U, Bytes, Entry, Ppn, Present, MapPage, Pte, TableOf, FreeInv;
    MapPageWords(m, d, v, p, flags);
    var t := MapPage(m, d, v, p, flags);
    EntryParts(p, flags);
    EntryWritten(m, t, d, v, Entry(p, flags), p);
    forall q | IsTable(t, q) ensures
      var e, y := U(t, q).dir, U(t, q).idx;
      U(t, e) == Dir && y < ENTRIES && Present(W(t, e, y)) && Ppn(W(t, e, y)) == q {
      assert IsTable(m, q);
    }
    forall q | IsUser(t, q) ensures
      var e, u := U(t, q).dir, U(t, q).va;
      U(t, e) == Dir && u < USERPAGES && Present(Pte(t, e, u)) && Ppn(Pte(t, e, u)) == q {
      assert q != p ==> IsUser(m, q);
    }
  }

  /** deallocuvm of one page: it goes back to the free list and its entry is cleared. */
  function Unmap(m: Phys, d: nat, v: nat): Phys
    requires Shape(m) && 0 <= TableOf(m, d, v) < |m.mem| && 0 <= Ppn(Pte(m, d, v)) < |m.mem|
  {
    SetWord(FreePage(m, Ppn(Pte(m, d, v))), TableOf(m, d, v), Ptx(v), 0)
  }

  lemma UnmapWords(m: Phys, d: nat, v: nat)
    requires Inv(m) && Mappable(m, d, v) && Present(Pte(m, d, v))
    ensures 0 <= TableOf(m, d, v) < |m.mem| && 0 <= Ppn(Pte(m, d, v)) < |m.mem|
    ensures var (t, p) := (Unmap(m, d, v), Ppn(Pte(m, d, v)));
            && Shape(t) && FreeUse(t) && DataKept(m, t) && U(m, p) == User(d, v) && t.free == [p] + m.free
            && (forall q: int, i: nat {:trigger W(t, q, i)} :: q != p ==>
                  W(t, q, i) == if q == TableOf(m, d, v) && i == Ptx(v) then 0 else W(m, q, i))
            && (forall q: int {:trigger U(t, q)} :: U(t, q) == if q == p then Free else U(m, q))
  {
    hide Chained, OwnInv;
    TableThere(m, d, v);
    var p := Ppn(Pte(m, d, v));
    assert U(m, p) == User(d, v);
    FreePageUse(m, p);
  }

  lemma UnmapChain(m: Phys, d: nat, v: nat)
    requires Inv(m) && Mappable(m, d, v) && Present(Pte(m, d, v))
    ensures 0 <= TableOf(m, d, v) < |m.mem| && 0 <= Ppn(Pte(m, d, v)) < |m.mem| && Chained(Unmap(m, d, v))
  {
    hide OwnInv;
    TableThere(m, d, v);
    var p := Ppn(Pte(m, d, v));
    assert U(m, p) == User(d, v);
    FreePageUse(m, p);
    FreePageChain(m, p);
    ChainKept(FreePage(m, p), TableOf(m, d, v), Ptx(v), 0);
  }

  lemma UnmapInv(m: Phys, d: nat, v: nat)
    requires Inv(m) && Mappable(m, d, v) && Present(Pte(m, d, v))
    ensures 0 <= TableOf(m, d, v) < |m.mem| && 0 <= Ppn(Pte(m, d, v)) < |m.mem|
    ensures var (t, p) := (Unmap(m, d, v), Ppn(Pte(m, d, v)));
            && Inv(t) && DataKept(m, t) && OneEntry(m, t, d, v, 0) && U(m, p) == User(d, v) && t.free == [p] + m.free
            && (forall q: int {:trigger U(t, q)} :: U(t, q) == if q == p then Free else U(m, q))
  {
    hide W, U, Bytes, Ppn, Present, Unmap, Pte, TableOf, FreeUse, Chained;
    UnmapWords(m, d, v);
    UnmapChain(m, d, v);
    var t, p := Unmap(m, d, v), Ppn(Pte(m, d, v));
    TableEntry(0);
    EntryWritten(m, t, d, v, 0, p);
    forall q | IsTable(t, q) ensures
      var e, y := U(t, q).dir, U(t, q).idx;
      U(t, e) == Dir && y < ENTRIES && Present(W(t, e, y)) && Ppn(W(t, e, y)) == q {
      assert IsTable(m, q);
    }
    forall q | IsUser(t, q) ensures
      var e, u := U(t, q).dir, U(t, q).va;
      U(t, e) == Dir && u < USERPAGES && Present(Pte(t, e, u)) && Ppn(Pte(t, e, u)) == q {
      assert IsUser(m, q);
    }
  }

  // ---- Ranges ----

  /** deallocuvm page by page: every page from `lo` up to `hi` that is there is unmapped. */
  function Scan(m: Phys, d: nat, lo: nat, hi: nat): (t: Phys)
    requires Shape(m)
    ensures Shape(t)
  {
    if hi <= lo then m else
      var t := Scan(m, d, lo, hi - 1);
      var (b, p) := (TableOf(t, d, hi - 1), Ppn(Pte(t, d, hi - 1)));
      if Present(Pte(t, d, hi - 1)) && 0 <= b < |t.mem| && 0 < p < |t.mem| then Unmap(t, d, hi - 1) else t
  }

  /** The pages of `d` from `lo` up to `hi` are free; nothing else has changed. */
  ghost predicate Shrunk(m: Phys, t: Phys, d: nat, lo: nat, hi: nat) {
    && (forall e: int, x: nat {:trigger W(t, e, x)} :: U(m, e) == Dir && x < ENTRIES ==> W(t, e, x) == W(m, e, x))
    && (forall e: int, u: nat {:trigger Pte(t, e, u)} :: U(m, e) == Dir && u < USERPAGES && !(e == d && lo <= u < hi) ==>
          Pte(t, e, u) == Pte(m, e, u))
    && (forall u: nat {:trigger Pte(t, d, u)} :: lo <= u < hi ==> !Present(Pte(t, d, u)))
    && (forall q: int {:trigger U(t, q)} :: U(t, q) ==
          if U(m, q).User? && U(m, q).dir == d && lo <= U(m, q).va < hi then Free else U(m, q))
    && DataKept(m, t)
  }

  /** A user page is where its directory says. */
  lemma Owner(m: Phys, d: nat, v: nat, q: int)
    requires OwnInv(m) && U(m, q) == User(d, v)
    ensures Present(Pte(m, d, v)) && Ppn(Pte(m, d, v)) == q
  {
    assert IsUser(m, q);
  }

  lemma PresentIsMappable(m: Phys, d: nat, v: nat)
    requires Shape(m) && U(m, d) == Dir && v < USERPAGES && Present(Pte(m, d, v)) && MapInv(m)
    ensures Mappable(m, d, v) && 0 <= TableOf(m, d, v) < |m.mem| && 0 < Ppn(Pte(m, d, v)) < |m.mem|
    ensures U(m, Ppn(Pte(m, d, v))) == User(d, v)
  {
  }

  lemma ShrunkUnmap(m: Phys, t: Phys, d: nat, lo: nat, a: nat)
    requires Inv(t) && U(m, d) == Dir && lo <= a < USERPAGES && Shrunk(m, t, d, lo, a) && Present(Pte(t, d, a))
    ensures 0 <= TableOf(t, d, a) < |t.mem| && 0 < Ppn(Pte(t, d, a)) < |t.mem|
    ensures Inv(Unmap(t, d, a)) && Shrunk(m, Unmap(t, d, a), d, lo, a + 1)
  {
    hide W, U, Bytes, Pte, Unmap, Ppn, Present, TableOf, Mappable, MapInv, FreeInv;
    assert U(t, d) == Dir;
    PresentIsMappable(t, d, a);
    UnmapInv(t, d, a);
    TableEntry(0);
    var t', p := Unmap(t, d, a), Ppn(Pte(t, d, a));
    forall q: int | U(t, q) == User(d, a) ensures q == p {
      Owner(t, d, a, q);
    }
  }

  lemma ShrunkStay(m: Phys, t: Phys, d: nat, lo: nat, a: nat)
    requires Inv(t) && U(m, d) == Dir && lo <= a < USERPAGES && Shrunk(m, t, d, lo, a) && !Present(Pte(t, d, a))
    ensures Shrunk(m, t, d, lo, a + 1)
  {
    hide W, U, Bytes, Pte, Ppn, Present, MapInv, FreeInv;
    forall q: int ensures U(t, q) != User(d, a) {
      if U(t, q) == User(d, a) {
        Owner(t, d, a, q);
      }
    }
  }

  /** The page-by-page scan frees exactly the user pages of the range. */
  lemma {:induction false} ScanShrinks(m: Phys, d: nat, lo: nat, hi: nat)
    requires Inv(m) && U(m, d) == Dir && lo <= hi <= USERPAGES
    ensures Inv(Scan(m, d, lo, hi)) && Shrunk(m, Scan(m, d, lo, hi), d, lo, hi)
  {
    hide W, U, Bytes, Pte, Unmap, Ppn, Present, TableOf, MapInv, OwnInv, FreeInv, Shape;
    if lo < hi {
      ScanShrinks(m, d, lo, hi - 1);
      var t := Scan(m, d, lo, hi - 1);
      if Present(Pte(t, d, hi - 1)) {
        ShrunkUnmap(m, t, d, lo, hi - 1);
      } else {
        ShrunkStay(m, t, d, lo, hi - 1);
      }
    }
  }

  lemma ScanStep(m: Phys, d: nat, lo: nat, a: nat)
    requires Inv(m) && U(m, d) == Dir && lo <= a < USERPAGES
    ensures var t := Scan(m, d, lo, a);
            && Inv(t) && U(t, d) == Dir && Scan(m, d, lo, a + 1) ==
              (if Present(Pte(t, d, a)) && 0 <= TableOf(t, d, a) < |t.mem| && 0 < Ppn(Pte(t, d, a)) < |t.mem|
               then Unmap(t, d, a) else t)
            && (Present(Pte(t, d, a)) ==> Mappable(t, d, a) && 0 <= TableOf(t, d, a) < |t.mem| && 0 < Ppn(Pte(t, d, a)) < |t.mem|)
            && Inv(Scan(m, d, lo, a + 1))
  {
    hide W, U, Pte, Unmap, Ppn, Present, TableOf, MapInv, OwnInv, FreeInv;
    ScanShrinks(m, d, lo, a);
    ScanShrinks(m, d, lo, a + 1);
    var t := Scan(m, d, lo, a);
    if Present(Pte(t, d, a)) {
      PresentIsMappable(t, d, a);
    }
  }

  /** A missing table: the scan finds nothing in the rest of its range. */
  lemma {:induction false} ScanSkip(m: Phys, d: nat, lo: nat, a: nat, b: nat)
    requires Shape(m) && lo <= a <= b
    requires !Present(W(Scan(m, d, lo, a), d, Pdx(a))) && forall v: nat :: a <= v < b ==> Pdx(v) == Pdx(a)
    ensures Scan(m, d, lo, b) == Scan(m, d, lo, a)
  {
    if a < b {
      ScanSkip(m, d, lo, a, b - 1);
    }
  }
}
