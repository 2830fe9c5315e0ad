/** memory/page.c and include/page.h: the four-level page table, as words of physical memory. */
module PageTable {
  import opened Arithmetic
  import opened Types

  type u64 = x: int | 0 <= x < 0x1_0000_0000_0000_0000

  const PRESENT := 0x1
  const PD_DEFAULT := 0x3
  const LEVELS := 4
  const ENTRIES := 512

  /** Physical memory, word by word. */
  type Memory = map<int, u64>

  // ----- include/page.h; shifts and masks are written as division and remainder -----

  /** PGD_OFFSET, PUD_OFFSET, PMD_OFFSET and PD_OFFSET. */
  function Index(level: nat, addr: u64): (i: nat)
    requires level < LEVELS
    ensures i < ENTRIES
  {
    match level
    case 0 => addr / 0x80_0000_0000 % 0x200
    case 1 => addr / 0x4000_0000 % 0x200
    case 2 => addr / 0x20_0000 % 0x200
    case _ => addr / 0x1000 % 0x200
  }

  /** The address of entry i of the table page at `page`: entries have 8 bytes. */
  function EntryAt(page: int, i: int): int {
    page + 8 * i
  }

  /** The bits of an entry under 0x7FFFFFFFFFFFF000. */
  function PdAddr(entry: u64): u64 {
    entry % 0x8000_0000_0000_0000 / 0x1000 * 0x1000
  }

  predicate Present(entry: u64) {
    entry % 2 == PRESENT
  }

  /** What set_pd and set_pte store; with at most 12 bits of flags the `or` is a sum. */
  function Entry(addr: u64, flags: u64): u64
    requires flags < 0x1000
  {
    PdAddr(addr) + flags
  }

  /** Bit k of a word. */
  function Bit(x: nat, k: nat): nat {
    if k == 0 then x % 2 else Bit(x / 2, k - 1)
  }

  function Power(n: nat): (p: nat)
    ensures p > 0
  {
    if n == 0 then 1 else 2 * Power(n - 1)
  }

  /** The bits of a * 2^n + f, for an f of n bits: those of f below n, those of a from there on. */
  lemma {:induction false} SplitBits(a: nat, n: nat, f: nat, k: nat)
    requires f < Power(n)
    ensures Bit(a * Power(n) + f, k) == if k < n then Bit(f, k) else Bit(a, k - n)
  {
    if n > 0 {
      var p := Power(n - 1);
      MulAssoc(a, 2, p);
      MulAssoc(2, a, p);
      assert (a * Power(n) + f) / 2 == a * p + f / 2 && (a * Power(n) + f) % 2 == f % 2;
      if k > 0 { SplitBits(a, n - 1, f / 2, k - 1); }
    }
  }

  lemma {:induction false} PowerAdd(m: nat, n: nat)
    ensures Power(m + n) == Power(m) * Power(n)
  {
    if m > 0 {
      PowerAdd(m - 1, n);
      MulAssoc(2, Power(m - 1), Power(n));
    }
  }

  lemma Powers()
    ensures Power(12) == 0x1000 && Power(51) == 0x8_0000_0000_0000 && Power(63) == 0x8000_0000_0000_0000
  {
    assert Power(3) == 8 && Power(12) == 0x1000;
    PowerAdd(12, 12);
    PowerAdd(24, 24);
    PowerAdd(48, 3);
    PowerAdd(51, 12);
  }

  /** Entry is the masked address or-ed with the flags: the flags below bit 12, the address from 12 to 62, and 0. */
  lemma EntryBits(addr: u64, flags: u64, k: nat)
    requires flags < 0x1000 && k < 64
    ensures Bit(Entry(addr, flags), k) == if k < 12 then Bit(flags, k) else if k < 63 then Bit(addr, k) else 0
  {
    hide Bit, Power;
    Powers();
    var low := addr % 0x8000_0000_0000_0000;
    var a := low / 0x1000;
    assert Entry(addr, flags) == a * 0x1000 + flags;
    SplitBits(a, 12, flags, k);
    SplitBits(a, 12, low % 0x1000, k);
    SplitBits(addr / 0x8000_0000_0000_0000, 63, low, k);
    if k == 63 { TopBit(a); }
  }

  lemma TopBit(a: nat)
    requires a < 0x8_0000_0000_0000
    ensures Bit(a, 51) == 0
  {
    hide Bit, Power;
    Powers();
    SplitBits(0, 51, a, 51);
    ZeroBit();
  }

  lemma ZeroBit()
    ensures Bit(0, 0) == 0
  {
  }

  predicate IsPage(p: int) {
    0 <= p < 0x8000_0000_0000_0000 && p % 0x1000 == 0
  }

  // ----- facts about the bits -----

  /** Different entries have different addresses. */
  lemma EntriesDiffer(p: int, i: nat, q: int, j: nat)
    requires IsPage(p) && IsPage(q) && i < ENTRIES && j < ENTRIES
    ensures EntryAt(p, i) == EntryAt(q, j) <==> p == q && i == j
  {
    assert EntryAt(p, i) / 0x1000 == p / 0x1000 && EntryAt(q, j) / 0x1000 == q / 0x1000;
  }

  /** An entry gives back its page and is present exactly if the flags say so. */
  lemma EntryDecodes(addr: u64, flags: u64)
    requires flags < 0x1000
    ensures PdAddr(Entry(addr, flags)) == PdAddr(addr) && (Present(Entry(addr, flags)) <==> flags % 2 == PRESENT)
    ensures IsPage(addr) ==> PdAddr(addr) == addr
  {
    var n := addr % 0x8000_0000_0000_0000 / 0x1000;
    assert PdAddr(addr) == n * 0x1000 && n < 0x8_0000_0000_0000;
    var e := n * 0x1000 + flags;
    assert e % 0x8000_0000_0000_0000 == e;
    assert e / 0x1000 == n;
    assert e % 2 == flags % 2;
  }

  /** The page number of a 48-bit address is its four indices, nine bits each. */
  lemma PageNumberFromIndices(a: u64)
    requires a < 0x1_0000_0000_0000
    ensures a / 0x1000 == Index(0, a) * 0x800_0000 + Index(1, a) * 0x4_0000 + Index(2, a) * 0x200 + Index(3, a)
  {
    var n := a / 0x1000;
    assert n / 0x200 == a / 0x20_0000 && n / 0x200 / 0x200 == a / 0x4000_0000
        && n / 0x200 / 0x200 / 0x200 == a / 0x80_0000_0000;
    assert a / 0x80_0000_0000 < 0x200;
  }

  /** The indices on the way down to level n. */
  function Path(addr: u64, n: nat): (r: seq<nat>)
    requires n <= LEVELS
    ensures |r| == n
  {
    if n == 0 then [] else Path(addr, n - 1) + [Index(n - 1, addr)]
  }

  /** The four indices determine the page number of a 48-bit address and are determined by it. */
  lemma PathIsPageNumber(a: u64, b: u64)
    requires a < 0x1_0000_0000_0000 && b < 0x1_0000_0000_0000
    ensures Path(a, 4) == Path(b, 4) <==> a / 0x1000 == b / 0x1000
  {
    PathElements(a);
    PathElements(b);
    PageNumberFromIndices(a);
    PageNumberFromIndices(b);
    if a / 0x1000 == b / 0x1000 {
      NineBits(Index(0, a), Index(1, a), Index(2, a), Index(3, a), Index(0, b), Index(1, b), Index(2, b), Index(3, b));
    }
  }

  lemma NineBits(a0: nat, a1: nat, a2: nat, a3: nat, b0: nat, b1: nat, b2: nat, b3: nat)
    requires a1 < 0x200 && a2 < 0x200 && a3 < 0x200 && b1 < 0x200 && b2 < 0x200 && b3 < 0x200
    requires a0 * 0x800_0000 + a1 * 0x4_0000 + a2 * 0x200 + a3 == b0 * 0x800_0000 + b1 * 0x4_0000 + b2 * 0x200 + b3
    ensures a0 == b0 && a1 == b1 && a2 == b2 && a3 == b3
  {
    var x, y := (a0 * 0x200 + a1) * 0x200 + a2, (b0 * 0x200 + b1) * 0x200 + b2;
    assert x * 0x200 + a3 == y * 0x200 + b3;
    assert x == y;
    assert a0 * 0x200 + a1 == b0 * 0x200 + b1;
  }

  lemma PathElements(a: u64)
    ensures Path(a, 4) == [Index(0, a), Index(1, a), Index(2, a), Index(3, a)]
  {
    hide Index;
    assert Path(a, 1) == [Index(0, a)];
    assert Path(a, 2) == [Index(0, a), Index(1, a)];
    assert Path(a, 3) == [Index(0, a), Index(1, a), Index(2, a)];
  }

  // ----- walking -----

  /** The memory holds all 512 words of the page. */
  ghost predicate Backed(m: Memory, p: int) {
    forall i: nat {:trigger EntryAt(p, i)} :: i < ENTRIES ==> EntryAt(p, i) in m
  }

  ghost predicate Zeroed(m: Memory, p: int) {
    forall i: nat {:trigger EntryAt(p, i)} :: i < ENTRIES ==> EntryAt(p, i) in m && m[EntryAt(p, i)] == 0
  }

  /** The tree: own maps each table page to the indices that lead to it.  Every page has one place, so
      no two present entries share a table. */
  ghost predicate Tree(m: Memory, root: u64, own: map<u64, seq<nat>>) {
    && root in own && own[root] == []
    && (forall p :: p in own ==> IsPage(p) && |own[p]| < LEVELS && Backed(m, p))
    && (forall p, i: nat {:trigger Links(m, own, p, i)} :: p in own && i < ENTRIES && |own[p]| < LEVELS - 1 ==>
        Links(m, own, p, i))
  }

  ghost predicate Links(m: Memory, own: map<u64, seq<nat>>, p: u64, i: nat)
    requires p in own
  {
    EntryAt(p, i) in m &&
    (Present(m[EntryAt(p, i)]) ==>
       PdAddr(m[EntryAt(p, i)]) in own && own[PdAddr(m[EntryAt(p, i)])] == own[p] + [i])
  }

  /** Where the walk for addr ends: the address of its page's entry, if all tables on the way are there. */
  function Slot(m: Memory, p: u64, addr: u64, level: nat): Option<int>
    requires level < LEVELS
    decreases LEVELS - level
  {
    var e := EntryAt(p, Index(level, addr));
    if level == LEVELS - 1 then Some(e)
    else if e in m && Present(m[e]) then Slot(m, PdAddr(m[e]), addr, level + 1)
    else None
  }

  /** The entry of addr's page, if it is present. */
  function Lookup(m: Memory, root: u64, addr: u64): Option<u64> {
    match Slot(m, root, addr, 0)
    case Some(e) => if e in m && Present(m[e]) then Some(m[e]) else None
    case None => None
  }

  /** What the processor reads at one level: the eight bytes of the table's entry number `index`, if it is present. */
  function Read(m: Memory, table: int, index: nat): Option<u64> {
    if table + 8 * index in m && m[table + 8 * index] % 2 == 1 then Some(m[table + 8 * index]) else None
  }

  /** Its walk: nine bits of the address for each of four levels, from bit 47 down, and the next table's address in bits
      12 to 62 of an entry. */
  function Walked(m: Memory, root: u64, a: u64): Option<u64> {
    match Read(m, root, a / 0x80_0000_0000 % 512)
    case None => None
    case Some(e0) =>
      match Read(m, e0 % 0x8000_0000_0000_0000 - e0 % 0x1000, a / 0x4000_0000 % 512)
      case None => None
      case Some(e1) =>
        match Read(m, e1 % 0x8000_0000_0000_0000 - e1 % 0x1000, a / 0x20_0000 % 512)
        case None => None
        case Some(e2) => Read(m, e2 % 0x8000_0000_0000_0000 - e2 % 0x1000, a / 0x1000 % 512)
  }

  lemma NextTable(e: u64)
    ensures PdAddr(e) == e % 0x8000_0000_0000_0000 - e % 0x1000
  {
    var low := e % 0x8000_0000_0000_0000;
    assert e == 0x8000_0000_0000_0000 * (e / 0x8000_0000_0000_0000) + low;
    assert low % 0x1000 == e % 0x1000;
  }

  lemma SlotStep(m: Memory, p: u64, a: u64, level: nat)
    requires level < 3
    ensures Slot(m, p, a, level) ==
            match Read(m, p, Index(level, a))
            case None => None
            case Some(e) => Slot(m, e % 0x8000_0000_0000_0000 - e % 0x1000, a, level + 1)
  {
    hide PdAddr, Index;
    if Read(m, p, Index(level, a)).Some? { NextTable(Read(m, p, Index(level, a)).value); }
  }

  lemma LastStep(m: Memory, p: u64, a: u64)
    ensures Slot(m, p, a, 3) == Some(p + 8 * (a / 0x1000 % 512))
  {
  }

  /** The lookup is that walk. */
  lemma LookupIsWalked(m: Memory, root: u64, a: u64)
    ensures Lookup(m, root, a) == Walked(m, root, a)
  {
    hide Slot;
    SlotStep(m, root, a, 0);
    var r0 := Read(m, root, a / 0x80_0000_0000 % 512);
    if r0.Some? {
      var t1 := PdAddr(r0.value);
      NextTable(r0.value);
      SlotStep(m, t1, a, 1);
      var r1 := Read(m, t1, a / 0x4000_0000 % 512);
      if r1.Some? {
        var t2 := PdAddr(r1.value);
        NextTable(r1.value);
        SlotStep(m, t2, a, 2);
        var r2 := Read(m, t2, a / 0x20_0000 % 512);
        if r2.Some? {
          NextTable(r2.value);
          LastStep(m, PdAddr(r2.value), a);
        }
      }
    }
  }

  /** Adding an empty table below an absent entry changes no walk's result: what was absent stays so. */
  lemma {:induction false} AddTableSlot(m: Memory, root: u64, own: map<u64, seq<nat>>, p: int, i: nat, q: u64,
                                        flags: u64, at: u64, addr: u64, level: nat)
    requires Tree(m, root, own) && p in own && |own[p]| < LEVELS - 1 && i < ENTRIES && EntryAt(p, i) in m
    requires !Present(m[EntryAt(p, i)])
    requires IsPage(q) && q !in own && Zeroed(m, q) && flags < 0x1000 && PdAddr(Entry(q, flags)) == q
    requires Present(Entry(q, flags))
    requires level < LEVELS && at in own && own[at] == Path(addr, level)
    ensures var m' := m[EntryAt(p, i) := Entry(q, flags)];
            match Slot(m, at, addr, level)
            case Some(e) => Slot(m', at, addr, level) == Some(e) && e in m && e in m' && m'[e] == m[e]
            case None => match Slot(m', at, addr, level)
                         case Some(e) => e in m' && !Present(m'[e])
                         case None => true
    decreases LEVELS - level
  {
    hide EntryAt, Present, PdAddr, Entry, IsPage, Index;
    var m', k := m[EntryAt(p, i) := Entry(q, flags)], Index(level, addr);
    ZeroIsAbsent();
    var e := EntryAt(at, k);
    EntriesDiffer(p, i, at, k);
    assert Backed(m, at);
    if level < LEVELS - 1 {
      if at == p && i == k {
        EmptyTable(m, p, i, q, flags, addr, level + 1);
      } else if Present(m[e]) {
        assert Links(m, own, at, k);
        AddTableSlot(m, root, own, p, i, q, flags, PdAddr(m[e]), addr, level + 1);
      }
    }
  }

  lemma ZeroIsAbsent()
    ensures !Present(0)
  {
  }

  /** A walk that enters the new table finds nothing. */
  lemma EmptyTable(m: Memory, p: int, i: nat, q: u64, flags: u64, addr: u64, level: nat)
    requires IsPage(p) && IsPage(q) && p != q && i < ENTRIES && Zeroed(m, q) && flags < 0x1000 && 0 < level < LEVELS
    ensures match Slot(m[EntryAt(p, i) := Entry(q, flags)], q, addr, level)
            case Some(e) => e in m && m[e] == 0 && e != EntryAt(p, i)
            case None => true
  {
    hide EntryAt, Present, PdAddr, Entry, IsPage, Index;
    EntriesDiffer(p, i, q, Index(level, addr));
    ZeroIsAbsent();
    var e := EntryAt(q, Index(level, addr));
    assert e in m && m[e] == 0;
  }

  /** Adding an empty table keeps the tree, with one more page in it. */
  lemma AddTableTree(m: Memory, root: u64, own: map<u64, seq<nat>>, p: u64, i: nat, q: u64, flags: u64)
    requires Tree(m, root, own) && p in own && |own[p]| < LEVELS - 1 && i < ENTRIES && EntryAt(p, i) in m
    requires !Present(m[EntryAt(p, i)])
    requires IsPage(q) && q !in own && Zeroed(m, q) && flags < 0x1000 && PdAddr(Entry(q, flags)) == q
    ensures Tree(m[EntryAt(p, i) := Entry(q, flags)], root, own[q := own[p] + [i]])
  {
    hide EntryAt, Present, PdAddr, Entry, IsPage;
    var m', own' := m[EntryAt(p, i) := Entry(q, flags)], own[q := own[p] + [i]];
    ZeroIsAbsent();
    forall x | x in own' ensures Backed(m', x) { assert x in own ==> Backed(m, x); }
    forall x, j: nat {:trigger Links(m', own', x, j)} | x in own' && j < ENTRIES && |own'[x]| < LEVELS - 1
      ensures Links(m', own', x, j)
    {
      EntriesDiffer(p, i, x, j);
      if x != q {
        assert Links(m, own, x, j);
      } else {
        assert EntryAt(q, j) in m;
      }
    }
  }

  /** Writing a last-level entry keeps the tree. */
  lemma SetEntryTree(m: Memory, root: u64, own: map<u64, seq<nat>>, p: u64, i: nat, v: u64)
    requires Tree(m, root, own) && p in own && |own[p]| == LEVELS - 1 && i < ENTRIES
    ensures Tree(m[EntryAt(p, i) := v], root, own)
  {
    hide EntryAt, Present, PdAddr, IsPage;
    var m' := m[EntryAt(p, i) := v];
    forall x | x in own ensures Backed(m', x) { assert Backed(m, x); }
    forall x, j: nat {:trigger Links(m', own, x, j)} | x in own && j < ENTRIES && |own[x]| < LEVELS - 1
      ensures Links(m', own, x, j)
    {
      EntriesDiffer(p, i, x, j);
      assert Links(m, own, x, j);
    }
  }

  /** ... and moves no walk: every walk ends at the same slot, and at the written one only for the
      addresses of that page. */
  lemma {:induction false} SetEntrySlot(m: Memory, root: u64, own: map<u64, seq<nat>>, p: u64, i: nat, v: u64, at: u64,
                                        addr: u64, level: nat)
    requires Tree(m, root, own) && p in own && |own[p]| == LEVELS - 1 && i < ENTRIES
    requires level < LEVELS && at in own && own[at] == Path(addr, level)
    ensures Slot(m[EntryAt(p, i) := v], at, addr, level) == Slot(m, at, addr, level)
    ensures match Slot(m, at, addr, level)
            case Some(e) => e in m && (e == EntryAt(p, i) ==> own[p] + [i] == Path(addr, 4))
            case None => true
    decreases LEVELS - level
  {
    hide EntryAt, Present, PdAddr, IsPage, Index;
    var k := Index(level, addr);
    EntriesDiffer(p, i, at, k);
    assert Backed(m, at) && EntryAt(at, k) in m;
    if level < LEVELS - 1 && Present(m[EntryAt(at, k)]) {
      assert Links(m, own, at, k);
      SetEntrySlot(m, root, own, p, i, v, PdAddr(m[EntryAt(at, k)]), addr, level + 1);
    }
  }

  // ----- the walk from the top -----

  /** The table page that the walk for addr reaches at a level. */
  function Table(m: Memory, root: u64, addr: u64, level: nat): Option<u64>
    requires level < LEVELS
  {
    if level == 0 then Some(root)
    else match Table(m, root, addr, level - 1)
         case None => None
         case Some(p) =>
           var e := EntryAt(p, Index(level - 1, addr));
           if e in m && Present(m[e]) then Some(PdAddr(m[e])) else None
  }

  /** How many tables are missing on the way to addr's entry. */
  function Missing(m: Memory, root: u64, addr: u64): nat {
    if Table(m, root, addr, 1).None? then 3 else if Table(m, root, addr, 2).None? then 2
        else if Table(m, root, addr, 3).None? then 1 else 0
  }

  lemma TablesAbove(m: Memory, root: u64, addr: u64)
    ensures Table(m, root, addr, 0) == Some(root)
    ensures Table(m, root, addr, 1).None? ==> Table(m, root, addr, 2).None?
    ensures Table(m, root, addr, 2).None? ==> Table(m, root, addr, 3).None?
  {
  }

  lemma {:induction false} TableOwned(m: Memory, root: u64, own: map<u64, seq<nat>>, addr: u64, level: nat)
    requires Tree(m, root, own) && level < LEVELS && Table(m, root, addr, level).Some?
    ensures var p := Table(m, root, addr, level).value;
            p in own && own[p] == Path(addr, level) && Slot(m, root, addr, 0) == Slot(m, p, addr, level)
  {
    hide EntryAt, Present, PdAddr, IsPage, Index;
    if level > 0 {
      TableOwned(m, root, own, addr, level - 1);
      assert Links(m, own, Table(m, root, addr, level - 1).value, Index(level - 1, addr));
    }
  }

  /** Writing an entry of a page leaves the walk above that page's level alone. */
  lemma {:induction false} TableAbove(m: Memory, root: u64, own: map<u64, seq<nat>>, p: u64, i: nat, v: u64, addr: u64,
                                      level: nat)
    requires Tree(m, root, own) && p in own && i < ENTRIES && level <= |own[p]|
    ensures Table(m[EntryAt(p, i) := v], root, addr, level) == Table(m, root, addr, level)
  {
    hide EntryAt, Present, PdAddr, IsPage, Index;
    if level > 0 {
      TableAbove(m, root, own, p, i, v, addr, level - 1);
      if Table(m, root, addr, level - 1).Some? {
        var q := Table(m, root, addr, level - 1).value;
        TableOwned(m, root, own, addr, level - 1);
        EntriesDiffer(p, i, q, Index(level - 1, addr));
        assert Backed(m, q);
      }
    }
  }

  // ----- memory/page.c -----

  /** The two addresses lie on the same page, as far as the hardware looks at them. */
  predicate SamePage(a: u64, b: u64) {
    Path(a, 4) == Path(b, 4)
  }

  ghost predicate SameLookups(m: Memory, w: Memory, root: u64) {
    forall a: u64 {:trigger Lookup(w, root, a)} :: Lookup(w, root, a) == Lookup(m, root, a)
  }

  lemma AddTableLookups(m: Memory, root: u64, own: map<u64, seq<nat>>, p: u64, i: nat, q: u64, flags: u64)
    requires Tree(m, root, own) && p in own && |own[p]| < LEVELS - 1 && i < ENTRIES && EntryAt(p, i) in m
    requires !Present(m[EntryAt(p, i)])
    requires IsPage(q) && q !in own && Zeroed(m, q) && flags < 0x1000 && PdAddr(Entry(q, flags)) == q
    requires Present(Entry(q, flags))
    ensures SameLookups(m, m[EntryAt(p, i) := Entry(q, flags)], root)
  {
    hide EntryAt, Present, PdAddr, Entry, IsPage, Tree, Slot;
    var w := m[EntryAt(p, i) := Entry(q, flags)];
    forall a: u64 ensures Lookup(w, root, a) == Lookup(m, root, a) {
      RootPath(m, root, own, a);
      AddTableSlot(m, root, own, p, i, q, flags, root, a, 0);
    }
  }

  lemma RootPath(m: Memory, root: u64, own: map<u64, seq<nat>>, a: u64)
    requires Tree(m, root, own)
    ensures root in own && own[root] == Path(a, 0)
  {
  }

  /** Every lookup is as before, except that the page of virt, if it was absent, now has this entry. */
  ghost predicate Mapped(m: Memory, w: Memory, root: u64, virt: u64, entry: u64) {
    forall a: u64 {:trigger Lookup(w, root, a)} ::
      Lookup(w, root, a) ==
        if SamePage(a, virt) && Lookup(m, root, virt).None? then (if Present(entry) then Some(entry) else None)
                            else Lookup(m, root, a)
  }

  /** All addresses of a page have one entry. */
  lemma {:induction false} SamePageSameSlot(m: Memory, p: u64, a: u64, b: u64, level: nat)
    requires level < LEVELS && forall k :: level <= k < LEVELS ==> Index(k, a) == Index(k, b)
    ensures Slot(m, p, a, level) == Slot(m, p, b, level)
    decreases LEVELS - level
  {
    hide EntryAt, Present, PdAddr, Index;
    if level < LEVELS - 1 {
      var e := EntryAt(p, Index(level, a));
      if e in m && Present(m[e]) { SamePageSameSlot(m, PdAddr(m[e]), a, b, level + 1); }
    }
  }

  lemma SamePageIndices(a: u64, b: u64)
    requires SamePage(a, b)
    ensures forall k :: 0 <= k < LEVELS ==> Index(k, a) == Index(k, b)
  {
    hide Index;
    PathElements(a);
    PathElements(b);
  }

  /** Writing the absent last-level entry that the walk for virt ends at maps that page and no other. */
  lemma SetEntryMaps(m: Memory, root: u64, own: map<u64, seq<nat>>, p: u64, virt: u64, entry: u64)
    requires Tree(m, root, own) && Table(m, root, virt, 3) == Some(p)
    requires EntryAt(p, Index(3, virt)) in m && !Present(m[EntryAt(p, Index(3, virt))])
    ensures Mapped(m, m[EntryAt(p, Index(3, virt)) := entry], root, virt, entry)
  {
    hide EntryAt, Present, IsPage, Index, Slot, Path, Tree, SamePage, Table;
    TableOwned(m, root, own, virt, 3);
    LastLevel(m, p, virt);
    PathSnoc(virt);
    var e := EntryAt(p, Index(3, virt));
    var w := m[e := entry];
    forall a: u64
      ensures Lookup(w, root, a) ==
                if SamePage(a, virt) && Lookup(m, root, virt).None? then (if Present(entry) then Some(entry) else None)
                                    else Lookup(m, root, a)
    {
      RootPath(m, root, own, a);
      SetEntrySlot(m, root, own, p, Index(3, virt), entry, root, a, 0);
      if SamePage(a, virt) {
        SamePageIndices(a, virt);
        SamePageSameSlot(m, root, a, virt, 0);
      } else {
        SamePageMeans(a, virt);
      }
    }
  }

  lemma LastLevel(m: Memory, p: u64, addr: u64)
    ensures Slot(m, p, addr, 3) == Some(EntryAt(p, Index(3, addr)))
  {
  }

  lemma PathSnoc(addr: u64)
    ensures Path(addr, 3) + [Index(3, addr)] == Path(addr, 4)
  {
  }

  lemma SamePageMeans(a: u64, b: u64)
    ensures SamePage(a, b) <==> Path(a, 4) == Path(b, 4)
  {
  }

  /** w is m but for words that were no present entries, in the pages of tables. */
  ghost predicate OnlyTables(m: Memory, w: Memory, own: map<u64, seq<nat>>) {
    && w.Keys == m.Keys
    && (forall x :: x in m && m[x] % 2 == 1 ==> w[x] == m[x])
    && (forall x :: x in m && w[x] != m[x] ==> InTable(own, x))
  }

  ghost predicate InTable(own: map<u64, seq<nat>>, x: int) {
    exists p :: p in own && p <= x < p + 0x1000
  }

  lemma OnlyTablesTwice(m: Memory, w: Memory, z: Memory, own: map<u64, seq<nat>>, more: map<u64, seq<nat>>)
    requires OnlyTables(m, w, own) && OnlyTables(w, z, more) && own.Keys <= more.Keys
    ensures OnlyTables(m, z, more)
  {
    forall x | x in m && z[x] != m[x] ensures InTable(more, x) {
      if w[x] != m[x] {
        var p :| p in own && p <= x < p + 0x1000;
        assert p in more;
      }
    }
  }

  lemma EntryInTable(m: Memory, own: map<u64, seq<nat>>, at: u64, i: nat, entry: u64)
    requires at in own && i < ENTRIES && EntryAt(at, i) in m && !Present(m[EntryAt(at, i)])
    ensures OnlyTables(m, m[EntryAt(at, i) := entry], own)
  {
    assert InTable(own, EntryAt(at, i));
  }

  lemma TablesStay(m: Memory, own: map<u64, seq<nat>>)
    ensures OnlyTables(m, m, own)
  {
  }

  /** An entry that hangs a table: its address, present and writable. */
  lemma HungEntry(at: u64, i: nat, page: u64, was: u64)
    requires IsPage(page) && !Present(was)
    ensures EntryAt(at, i) == at + 8 * i && Entry(page, PD_DEFAULT) == page + 3
    ensures PdAddr(Entry(page, PD_DEFAULT)) == page
    ensures was % 2 == 0
  {
    EntryDecodes(page, PD_DEFAULT);
  }

  class PageTables {
    const root: u64
    var mem: Memory
    var tablePages: seq<u64>  // what kpage_alloc hands out next
    var frames: seq<u64>      // what page_alloc_phys hands out next
    ghost var own: map<u64, seq<nat>>

    /** The tree is sound, and the pages the allocator still has are fresh, zeroed and distinct. */
    ghost predicate Valid()
      reads this
    {
      && Tree(mem, root, own)
      && (forall i :: 0 <= i < |tablePages| ==> Fresh(tablePages[i]))
      && (forall i, j :: 0 <= i < j < |tablePages| ==> tablePages[i] != tablePages[j])
    }

    ghost predicate Fresh(q: u64)
      reads this
    {
      IsPage(q) && q !in own && Zeroed(mem, q)
    }

    constructor (root: u64, mem: Memory, tablePages: seq<u64>, frames: seq<u64>)
      requires IsPage(root) && Zeroed(mem, root) && root !in tablePages
      requires forall i :: 0 <= i < |tablePages| ==> IsPage(tablePages[i]) && Zeroed(mem, tablePages[i])
      requires forall i, j :: 0 <= i < j < |tablePages| ==> tablePages[i] != tablePages[j]
      ensures Valid() && this.root == root && this.mem == mem && this.tablePages == tablePages && this.frames == frames
      ensures forall a: u64 :: Lookup(mem, root, a) == None
    {
      this.root, this.mem, this.tablePages, this.frames := root, mem, tablePages, frames;
      own := map[root := []];
      new;
      ZeroIsAbsent();
      forall i: nat | i < ENTRIES ensures Links(mem, own, root, i) { assert EntryAt(root, i) in mem; }
      forall a: u64 ensures Lookup(mem, root, a) == None { assert EntryAt(root, Index(0, a)) in mem; }
    }

    /** get_pte: the entry of the page of addr, if it is present. */
    method GetPte(addr: u64) returns (e: Option<int>)
      requires Valid()
      ensures e.None? <==> Lookup(mem, root, addr).None?
      ensures e.Some? ==>
                Slot(mem, root, addr, 0) == e && e.value in mem && Lookup(mem, root, addr) == Some(mem[e.value])
    {
      hide EntryAt, Present, PdAddr, IsPage, Index;
      var pud := EntryAt(root, Index(0, addr));
      assert Links(mem, own, root, Index(0, addr));
      if !Present(mem[pud]) { return None; }
      var table := PdAddr(mem[pud]);
      var pmd := EntryAt(table, Index(1, addr));
      assert Links(mem, own, table, Index(1, addr));
      if !Present(mem[pmd]) { return None; }
      table := PdAddr(mem[pmd]);
      var pd := EntryAt(table, Index(2, addr));
      assert Links(mem, own, table, Index(2, addr));
      if !Present(mem[pd]) { return None; }
      table := PdAddr(mem[pd]);
      var pte := EntryAt(table, Index(3, addr));
      assert Backed(mem, table);
      if !Present(mem[pte]) { return None; }
      return Some(pte);
    }

    /** One level of page_setup: if the entry is absent, hang a fresh table below it; then go down. */
    method Descend(at: u64, addr: u64, ghost level: nat, index: nat) returns (next: u64)
      requires Valid() && level < LEVELS - 1 && Table(mem, root, addr, level) == Some(at) && index == Index(level, addr)
      requires Table(mem, root, addr, level + 1).None? ==> |tablePages| > 0
      modifies this`mem, this`own, this`tablePages
      ensures Valid() && Table(mem, root, addr, level + 1) == Some(next)
      ensures SameLookups(old(mem), mem, root)
      ensures if old(Table(mem, root, addr, level + 1)).Some? then mem == old(mem) && tablePages == old(tablePages)
              else
                && |old(tablePages)| > 0 && next == old(tablePages)[0] && tablePages == old(tablePages)[1..]
                && at + 8 * index in old(mem) && old(mem)[at + 8 * index] % 2 == 0
                && next + 3 <= 0xFFFF_FFFF_FFFF_FFFF && mem == old(mem)[at + 8 * index := next + 3]
                && (level < LEVELS - 2 ==> Table(mem, root, addr, level + 2).None?)
      ensures OnlyTables(old(mem), mem, own) && old(own.Keys) <= own.Keys
    {
      hide EntryAt, Present, PdAddr, Entry, IsPage, Index, Tree, Lookup;
      TableOwned(mem, root, own, addr, level);
      var d := EntryAt(at, index);
      EntryBacked(mem, root, own, at, index);
      TablesStay(mem, own);
      if !Present(mem[d]) {
        var page := tablePages[0];
        assert Fresh(page);
        EntryDecodes(page, PD_DEFAULT);
        AddTableTree(mem, root, own, at, index, page, PD_DEFAULT);
        AddTableLookups(mem, root, own, at, index, page, PD_DEFAULT);
        TableAbove(mem, root, own, at, index, Entry(page, PD_DEFAULT), addr, level);
        FreshStay(at, index, Entry(page, PD_DEFAULT));
        HungEntry(at, index, page, mem[d]);
        EntryInTable(mem, own[page := own[at] + [index]], at, index, Entry(page, PD_DEFAULT));
        assert Zeroed(mem[d := Entry(page, PD_DEFAULT)], page);
        tablePages := tablePages[1..];
        mem := mem[d := Entry(page, PD_DEFAULT)];
        own := own[page := own[at] + [index]];
      }
      next := PdAddr(mem[d]);
      if level < LEVELS - 2 { NothingBelow(mem, root, addr, level + 1, next); }
    }

    /** Writing a table entry leaves the allocator's pages zeroed. */
    lemma FreshStay(at: u64, index: nat, entry: u64)
      requires Valid() && at in own && index < ENTRIES
      ensures forall i :: 0 <= i < |tablePages| ==> Zeroed(mem[EntryAt(at, index) := entry], tablePages[i])
    {
      hide EntryAt, IsPage;
      forall i | 0 <= i < |tablePages| ensures Zeroed(mem[EntryAt(at, index) := entry], tablePages[i]) {
        var q := tablePages[i];
        assert Fresh(q);
        forall j: nat {:trigger EntryAt(q, j)} | j < ENTRIES
          ensures EntryAt(q, j) in mem[EntryAt(at, index) := entry]
          ensures mem[EntryAt(at, index) := entry][EntryAt(q, j)] == 0
        {
          EntriesDiffer(at, index, q, j);
        }
      }
    }

    /** page_setup.  The physical address it is given plays no part: the frame comes from the pool.  It needs a table
        page for each missing level, and a frame if the page is absent. */
    method PageSetup(phys: u64, virt: u64, flags: u64)
      requires Valid() && |tablePages| >= Missing(mem, root, virt) && flags < 0x1000
      requires Lookup(mem, root, virt).None? ==> |frames| > 0
      modifies this`mem, this`own, this`tablePages, this`frames
      ensures Valid()
      ensures Lookup(old(mem), root, virt).None? ==> Mapped(old(mem), mem, root, virt, Entry(old(frames)[0], flags))
      ensures Lookup(old(mem), root, virt).Some? ==> SameLookups(old(mem), mem, root)
      ensures frames == if Lookup(old(mem), root, virt).Some? then old(frames) else old(frames)[1..]
      ensures tablePages == old(tablePages)[Missing(old(mem), root, virt)..]
      ensures OnlyTables(old(mem), mem, own)
    {
      hide EntryAt, Present, PdAddr, Entry, IsPage, Index, Tree, Lookup, SamePage, OnlyTables, Slot, Table, Zeroed,
          Path;
      ghost var m0 := mem;
      TablesAbove(mem, root, virt);
      var pud := Descend(root, virt, 0, Index(0, virt));
      ghost var m1, own1 := mem, own;
      var pmd := Descend(pud, virt, 1, Index(1, virt));
      OnlyTablesTwice(m0, m1, mem, own1, own);
      ghost var m2, own2 := mem, own;
      var pd := Descend(pmd, virt, 2, Index(2, virt));
      OnlyTablesTwice(m0, m2, mem, own2, own);
      ghost var m3 := mem;
      SetLast(pd, virt, flags);
      OnlyTablesTwice(m0, m3, mem, own, own);
    }

    /** The last level of page_setup: an absent entry gets the next frame. */
    method SetLast(pd: u64, virt: u64, flags: u64)
      requires Valid() && Table(mem, root, virt, 3) == Some(pd) && flags < 0x1000
      requires Lookup(mem, root, virt).None? ==> |frames| > 0
      modifies this`mem, this`frames
      ensures Valid()
      ensures Lookup(old(mem), root, virt).None? ==> Mapped(old(mem), mem, root, virt, Entry(old(frames)[0], flags))
      ensures Lookup(old(mem), root, virt).Some? ==> mem == old(mem)
      ensures frames == if Lookup(old(mem), root, virt).Some? then old(frames) else old(frames)[1..]
      ensures OnlyTables(old(mem), mem, own)
    {
      hide EntryAt, Present, PdAddr, Entry, IsPage, Index, Tree, Lookup, SamePage, OnlyTables, Slot;
      var pte := EntryAt(pd, Index(3, virt));
      TableOwned(mem, root, own, virt, 3);
      EntryBacked(mem, root, own, pd, Index(3, virt));
      WalkEnds(mem, root, own, virt, pd);
      TablesStay(mem, own);
      if !Present(mem[pte]) {
        var page := frames[0];
        frames := frames[1..];
        SetEntryMaps(mem, root, own, pd, virt, Entry(page, flags));
        SetEntryTree(mem, root, own, pd, Index(3, virt), Entry(page, flags));
        FreshStay(pd, Index(3, virt), Entry(page, flags));
        EntryInTable(mem, own, pd, Index(3, virt), Entry(page, flags));
        mem := mem[pte := Entry(page, flags)];
      }
    }
  }

  /** A zeroed table leads nowhere. */
  lemma NothingBelow(m: Memory, root: u64, addr: u64, level: nat, p: u64)
    requires level < LEVELS - 1 && Table(m, root, addr, level) == Some(p)
    ensures Zeroed(m, p) ==> Table(m, root, addr, level + 1).None?
  {
    hide EntryAt, Index;
    ZeroIsAbsent();
    assert Index(level, addr) < ENTRIES;
  }

  lemma EntryBacked(m: Memory, root: u64, own: map<u64, seq<nat>>, p: u64, i: nat)
    requires Tree(m, root, own) && p in own && i < ENTRIES
    ensures EntryAt(p, i) in m
  {
    assert Backed(m, p);
  }

  /** Once all tables are there, the lookup is the last-level entry. */
  lemma WalkEnds(m: Memory, root: u64, own: map<u64, seq<nat>>, addr: u64, p: u64)
    requires Tree(m, root, own) && Table(m, root, addr, 3) == Some(p)
    ensures var e := EntryAt(p, Index(3, addr));
            e in m && Lookup(m, root, addr) == if Present(m[e]) then Some(m[e]) else None
  {
    hide EntryAt, Present, PdAddr, IsPage, Index;
    TableOwned(m, root, own, addr, 3);
    EntryBacked(m, root, own, p, Index(3, addr));
  }
}
