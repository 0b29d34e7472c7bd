/** Directories: files of 16-byte records, each an inode number and a name of at most 14 characters.

    Strings end at their first NUL, as in C; the bytes of a file are characters too. */
module Directory {
  import opened Params

  const NUL := '\0'

  type Chars = string

  // ---- Names ----

  /** Where a string ends: at its first NUL from `i` on, or at `n`. */
  function End(s: Chars, i: nat, n: nat): (e: nat)
    requires i <= n && i <= |s|
    ensures i <= e <= n && e <= |s|
    ensures forall j :: i <= j < e ==> s[j] != NUL
    ensures e < n && e < |s| ==> s[e] == NUL
    decreases n - i
  {
    if i == n || i == |s| || s[i] == NUL then i else End(s, i + 1, n)
  }

  /** The string can be read up to `n` characters: it does not run off its buffer. */
  predicate Readable(s: Chars, n: nat) { End(s, 0, n) == n || End(s, 0, n) < |s| }

  /** What a name of at most `n` characters stands for. */
  function Key(s: Chars, n: nat): Chars { s[..End(s, 0, n)] }

  lemma EndIs(s: Chars, n: nat, e: nat)
    requires e <= n && e <= |s| && (forall j :: 0 <= j < e ==> s[j] != NUL) && (e == n || e == |s| || s[e] == NUL)
    ensures End(s, 0, n) == e
  {
  }

  /** strncmp: the difference of the first characters that differ; 0 exactly for equal keys. */
  method Strncmp(p: Chars, q: Chars, n: nat) returns (r: int)
    requires Readable(p, n) && Readable(q, n)
    ensures r == 0 <==> Key(p, n) == Key(q, n)
    ensures r != 0 ==> exists i :: 0 <= i < n && i < |p| && i < |q| && p[..i] == q[..i] && r == p[i] as int - q[i] as int
  {
    var i := 0;
    while i < n && p[i] != NUL && p[i] == q[i]
      invariant i <= n && i <= End(p, 0, n) && i <= End(q, 0, n)
      invariant p[..i] == q[..i]
    {
      i := i + 1;
    }
    if i == n {
      return 0;
    }
    r := p[i] as int - q[i] as int;
    if r != 0 {
      assert i < End(p, 0, n) || i < End(q, 0, n);
      assert i < End(p, 0, n) ==> Key(p, n)[i] == p[i];
      assert i < End(q, 0, n) ==> Key(q, n)[i] == q[i];
    }
  }

  /** strncpy: the key, then NULs. */
  method Strncpy(t: Chars, n: nat) returns (s: Chars)
    requires Readable(t, n)
    ensures |s| == n && Key(s, n) == Key(t, n) && forall j :: |Key(t, n)| <= j < n ==> s[j] == NUL
  {
    s := [];
    while |s| < n && t[|s|] != NUL
      invariant |s| <= End(t, 0, n) && s == t[..|s|]
    {
      s := s + [t[|s|]];
    }
    var e := |s|;
    EndIs(t, n, e);
    while |s| < n
      invariant e <= |s| <= n && s[..e] == t[..e] && forall j :: e <= j < |s| ==> s[j] == NUL
    {
      s := s + [NUL];
    }
    forall j | 0 <= j < e ensures s[j] != NUL {
      assert s[..e][j] == t[..e][j];
    }
    EndIs(s, n, e);
  }

  // ---- Records ----

  type Bytes = string

  function Slots(data: Bytes): nat { |data| / RECORD }

  function Inum(data: Bytes, k: nat): int
    requires k < Slots(data)
  {
    data[RECORD * k] as int + 256 * data[RECORD * k + 1] as int
  }

  function NameAt(data: Bytes, k: nat): (s: Chars)
    requires k < Slots(data)
    ensures |s| == DIRSIZ
  {
    data[RECORD * k + 2..RECORD * k + RECORD]
  }

  function KeyAt(data: Bytes, k: nat): Chars
    requires k < Slots(data)
  {
    Key(NameAt(data, k), DIRSIZ)
  }

  /** writei of one record, over slot `k` or at the end. */
  function SetRecord(data: Bytes, k: nat, r: Bytes): Bytes
    requires |data| % RECORD == 0 && k <= Slots(data) && |r| == RECORD
  {
    data[..RECORD * k] + r + if k < Slots(data) then data[RECORD * k + RECORD..] else []
  }

  lemma RecordSet(data: Bytes, k: nat, r: Bytes)
    requires |data| % RECORD == 0 && k <= Slots(data) && |r| == RECORD
    ensures var t := SetRecord(data, k, r);
            && |t| % RECORD == 0 && Slots(t) == (if k < Slots(data) then Slots(data) else k + 1)
            && Inum(t, k) == r[0] as int + 256 * r[1] as int && NameAt(t, k) == r[2..]
  {
    var t := SetRecord(data, k, r);
    assert t[RECORD * k..RECORD * k + RECORD] == r;
    assert forall i :: 0 <= i < RECORD ==> t[RECORD * k + i] == r[i];
  }

  lemma OtherRecord(data: Bytes, k: nat, r: Bytes, j: nat)
    requires |data| % RECORD == 0 && k <= Slots(data) && |r| == RECORD && j < Slots(data) && j != k
    ensures var t := SetRecord(data, k, r);
            j < Slots(t) && Inum(t, j) == Inum(data, j) && NameAt(t, j) == NameAt(data, j)
  {
    var t := SetRecord(data, k, r);
    forall i | RECORD * j <= i < RECORD * j + RECORD ensures t[i] == data[i] {
    }
  }

  // ---- Directories ----

  /** The directory holds exactly `names`; `slot` says in which record each name is. */
  ghost predicate Holds(data: Bytes, names: map<Chars, int>, slot: map<Chars, nat>) {
    && |data| % RECORD == 0
    && (forall i :: 0 <= i < Slots(data) && Inum(data, i) != 0 ==>
          KeyAt(data, i) in names && KeyAt(data, i) in slot && slot[KeyAt(data, i)] == i)
    && (forall k :: k in names ==> k in slot && slot[k] < Slots(data) && KeyAt(data, slot[k]) == k)
    && (forall k :: k in names ==> Inum(data, slot[k]) == names[k] != 0)
  }

  /** Slot `i` now has the given number and name; the others are as before. */
  ghost predicate OneRecord(data: Bytes, t: Bytes, i: nat, inum: int, key: Chars) {
    && |t| % RECORD == 0 && i <= Slots(data) && Slots(t) == (if i < Slots(data) then Slots(data) else i + 1)
    && Inum(t, i) == inum && KeyAt(t, i) == key
    && forall j :: 0 <= j < Slots(data) && j != i ==> Inum(t, j) == Inum(data, j) && KeyAt(t, j) == KeyAt(data, j)
  }

  lemma RecordWritten(data: Bytes, i: nat, r: Bytes)
    requires |data| % RECORD == 0 && i <= Slots(data) && |r| == RECORD
    ensures OneRecord(data, SetRecord(data, i, r), i, r[0] as int + 256 * r[1] as int, Key(r[2..], DIRSIZ))
  {
    var t := SetRecord(data, i, r);
    RecordSet(data, i, r);
    forall j: nat | j < Slots(data) && j != i ensures Inum(t, j) == Inum(data, j) && NameAt(t, j) == NameAt(data, j) {
      OtherRecord(data, i, r, j);
    }
  }

  lemma InumEncoded(inum: nat)
    requires inum < 0x1_0000
    ensures inum % 256 + 256 * (inum / 256 % 256) == inum
  {
  }

  /** Writing a new name into a free slot, or at the end, adds the name. */
  lemma AddsName(data: Bytes, t: Bytes, names: map<Chars, int>, slot: map<Chars, nat>, i: nat, k: Chars, inum: nat)
    requires Holds(data, names, slot) && (i < Slots(data) ==> Inum(data, i) == 0)
    requires k !in names && inum > 0 && OneRecord(data, t, i, inum, k)
    ensures Holds(t, names[k := inum], slot[k := i])
  {
    hide Inum, KeyAt, Slots;
  }

  /** Clearing the record of a name removes the name. */
  lemma RemovesName(data: Bytes, t: Bytes, names: map<Chars, int>, slot: map<Chars, nat>, k: Chars, x: Chars)
    requires Holds(data, names, slot) && k in names && OneRecord(data, t, slot[k], 0, x)
    ensures Holds(t, names - {k}, slot - {k})
  {
    hide Inum, KeyAt, Slots;
  }

  lemma FullIsReadable(s: Chars)
    requires |s| == DIRSIZ
    ensures Readable(s, DIRSIZ)
  {
  }

  ghost predicate HasFree(data: Bytes) {
    exists i :: 0 <= i < Slots(data) && Inum(data, i) == 0
  }

  class DirFile {
    var data: Bytes
    ghost var names: map<Chars, int>
    ghost var slot: map<Chars, nat>

    ghost predicate Valid()
      reads this
    {
      Holds(data, names, slot)
    }

    constructor ()
      ensures Valid() && names == map[]
    {
      data, names, slot := [], map[], map[];
    }

    /** dirlookup: the inode of the name, and where its record is; 0 exactly when the name is not there. */
    method Dirlookup(name: Chars) returns (inum: int, off: nat)
      requires Valid() && Readable(name, DIRSIZ)
      ensures inum == 0 <==> Key(name, DIRSIZ) !in names
      ensures inum != 0 ==> inum == names[Key(name, DIRSIZ)] && off == RECORD * slot[Key(name, DIRSIZ)]
    {
      hide Holds, Key, Readable;
      ghost var k := Key(name, DIRSIZ);
      WholeRecords(data, names, slot);
      off := 0;
      ghost var i := 0;
      while off < |data|
        invariant off == RECORD * i <= |data| && i <= Slots(data)
        invariant forall j :: 0 <= j < i && Inum(data, j) != 0 ==> KeyAt(data, j) != k
      {
        inum := data[off] as int + 256 * data[off + 1] as int;
        if inum != 0 {
          var de := data[off + 2..off + RECORD];
          FullIsReadable(de);
          var c := Strncmp(name, de, DIRSIZ);
          if c == 0 {
            FoundName(data, names, slot, i);
            return inum, off;
          }
        }
        off, i := off + RECORD, i + 1;
      }
      NotFound(data, names, slot, k);
      return 0, 0;
    }
  
    /** dirlink fails exactly when the name is there; else it adds the name and nothing else, in a free record if
        there is one. */
    method Dirlink(name: Chars, inum: nat) returns (ok: bool)
      requires Valid() && Readable(name, DIRSIZ) && 0 < inum < 0x1_0000
      modifies this
      ensures Valid() && (ok <==> Key(name, DIRSIZ) !in old(names))
      ensures names == if ok then old(names)[Key(name, DIRSIZ) := inum] else old(names)
      ensures |data| == |old(data)| + if ok && !HasFree(old(data)) then RECORD else 0
    {
      hide Holds;
      ghost var k := Key(name, DIRSIZ);
      var present, _ := Dirlookup(name);
      if present != 0 {
        return false;
      }
      WholeRecords(data, names, slot);
      var off := 0;
      ghost var i := 0;
      while off < |data|
        invariant off == RECORD * i <= |data| && i <= Slots(data)
        invariant forall j :: 0 <= j < i ==> Inum(data, j) != 0
      {
        if data[off] as int + 256 * data[off + 1] as int == 0 {
          break;
        }
        off, i := off + RECORD, i + 1;
      }
      var copy := Strncpy(name, DIRSIZ);
      var r := [(inum % 256) as char, (inum / 256 % 256) as char] + copy;
      RecordWritten(data, i, r);
      InumEncoded(inum);
      assert r[2..] == copy;
      AddsName(data, SetRecord(data, i, r), names, slot, i, k, inum);
      data := data[..off] + r + if off + RECORD <= |data| then data[off + RECORD..] else [];
      names, slot := names[k := inum], slot[k := i];
      return true;
    }

    /** unlink's writei of NULs over the record that dirlookup found. */
    method Clear(off: nat, ghost k: Chars)
      requires Valid() && k in names && off == RECORD * slot[k]
      modifies this
      ensures Valid() && names == old(names) - {k} && |data| == |old(data)|
    {
      hide Holds, Key;
      InRange(data, names, slot, k);
      var r := seq(RECORD, _ => NUL);
      ClearedRecord(data, names, slot, k, r);
      data := data[..off] + r + data[off + RECORD..];
      names, slot := names - {k}, slot - {k};
    }

    /** isdirempty, of a directory whose first two records are "." and "..". */
    method IsDirEmpty(ghost dot: Chars, ghost dotdot: Chars) returns (r: bool)
      requires Valid() && dot in names && dotdot in names && slot[dot] == 0 && slot[dotdot] == 1
      ensures r <==> forall k :: k in names ==> k == dot || k == dotdot
    {
      hide Holds;
      InRange(data, names, slot, dot);
      InRange(data, names, slot, dotdot);
      var off := 2 * RECORD;
      ghost var i := 2;
      while off < |data|
        invariant off == RECORD * i && 2 <= i <= Slots(data)
        invariant forall j :: 2 <= j < i ==> Inum(data, j) == 0
      {
        if data[off] as int + 256 * data[off + 1] as int != 0 {
          FoundName(data, names, slot, i);
          return false;
        }
        off, i := off + RECORD, i + 1;
      }
      OnlyDots(data, names, slot, dot, dotdot);
      return true;
    }
  }

  lemma FoundName(data: Bytes, names: map<Chars, int>, slot: map<Chars, nat>, i: nat)
    requires Holds(data, names, slot) && i < Slots(data) && Inum(data, i) != 0
    ensures var k := KeyAt(data, i); k in names && k in slot && slot[k] == i && names[k] == Inum(data, i)
  {
  }

  lemma NotFound(data: Bytes, names: map<Chars, int>, slot: map<Chars, nat>, k: Chars)
    requires Holds(data, names, slot) && forall j :: 0 <= j < Slots(data) && Inum(data, j) != 0 ==> KeyAt(data, j) != k
    ensures k !in names
  {
  }

  lemma OnlyDots(data: Bytes, names: map<Chars, int>, slot: map<Chars, nat>, dot: Chars, dotdot: Chars)
    requires Holds(data, names, slot) && dot in names && dotdot in names && slot[dot] == 0 && slot[dotdot] == 1
    requires forall j :: 2 <= j < Slots(data) ==> Inum(data, j) == 0
    ensures forall k :: k in names ==> k == dot || k == dotdot
  {
    hide Inum, KeyAt, Slots;
  }

  lemma ClearedRecord(data: Bytes, names: map<Chars, int>, slot: map<Chars, nat>, k: Chars, r: Bytes)
    requires Holds(data, names, slot) && k in names && |data| % RECORD == 0 && k in slot && slot[k] < Slots(data)
    requires |r| == RECORD && r[0] == NUL && r[1] == NUL
    ensures Holds(SetRecord(data, slot[k], r), names - {k}, slot - {k})
  {
    hide Holds, Key;
    RecordWritten(data, slot[k], r);
    RemovesName(data, SetRecord(data, slot[k], r), names, slot, k, Key(r[2..], DIRSIZ));
  }

  lemma WholeRecords(data: Bytes, names: map<Chars, int>, slot: map<Chars, nat>)
    requires Holds(data, names, slot)
    ensures |data| % RECORD == 0
  {
  }

  lemma InRange(data: Bytes, names: map<Chars, int>, slot: map<Chars, nat>, k: Chars)
    requires Holds(data, names, slot) && k in names
    ensures |data| % RECORD == 0 && k in slot && slot[k] < Slots(data) && RECORD * slot[k] + RECORD <= |data|
  {
  }
}
