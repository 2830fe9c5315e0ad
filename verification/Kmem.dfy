/** memory/kmem.c: pools of pages and of 16-byte shards, allocated first-fit over a bitmap. */
module Kmem {
  import opened Arithmetic
  import opened Types
  import opened Bitmap

  const KMEM_ADDR := 0x100_0000
  const KMEM_PAGE_SIZE := 0x1000
  const KMEM_NUM_PAGES := 0x1000
  const KMEM_SHARD_SIZE := 16
  const KMEM_SHARD_PAGES := 8
  const KMEM_NUM_SHARD := KMEM_SHARD_PAGES * KMEM_PAGE_SIZE / KMEM_SHARD_SIZE

  /** Units that were given out and not yet given back. */
  datatype Block = Block(loc: nat, num: nat)

  /** The entries' bits and the live blocks. */
  datatype Pool = Pool(bits: seq<bool>, live: seq<Block>)

  ghost predicate Holds(b: Block, k: int) {
    b.loc <= k < b.loc + b.num
  }

  ghost predicate Apart(a: Block, b: Block) {
    a.num == 0 || b.num == 0 || a.loc + a.num <= b.loc || b.loc + b.num <= a.loc
  }

  /** The live blocks lie inside the pool (the last unit is never used), apart from each other, and the set bits are
      exactly theirs. */
  ghost predicate Consistent(p: Pool, nr: nat) {
    && nr <= |p.bits|
    && (forall i :: 0 <= i < |p.live| ==> p.live[i].loc + p.live[i].num < nr)
    && (forall i, j :: 0 <= i < j < |p.live| ==> Apart(p.live[i], p.live[j]))
    && (forall k :: 0 <= k < nr ==> (p.bits[k] <==> exists i :: 0 <= i < |p.live| && Holds(p.live[i], k)))
  }

  ghost function Alloc(test: Test, p: Pool, nr: nat, num: nat): Pool
    requires nr <= |p.bits|
  {
    var r := FirstFit(test, p.bits, nr, num, 0);
    if r < 0 then p else Pool(Filled(p.bits, r, num, true), p.live + [Block(r, num)])
  }

  ghost function Free(p: Pool, i: nat): Pool
    requires i < |p.live|
  {
    Pool(Filled(p.bits, p.live[i].loc, p.live[i].num, false), p.live[..i] + p.live[i + 1..])
  }

  // ----- what every step keeps -----

  /** Giving out a clear run keeps the pool consistent; giving out a run with a set bit does not. */
  lemma GiveKeepsConsistent(p: Pool, nr: nat, r: nat, num: nat)
    requires Consistent(p, nr) && r + num < nr
    ensures Consistent(Pool(Filled(p.bits, r, num, true), p.live + [Block(r, num)]), nr) <==> Run(p.bits, r, num, false)
  {
    var n := |p.live|;
    var b := Block(r, num);
    var q := Pool(Filled(p.bits, r, num, true), p.live + [b]);
    if Run(p.bits, r, num, false) {
      forall i | 0 <= i < n
        ensures Apart(p.live[i], b)
      {
        ClearRunIsApart(p, nr, i, b);
      }
      forall k | 0 <= k < nr
        ensures q.bits[k] <==> exists i :: 0 <= i < |q.live| && Holds(q.live[i], k)
      {
        if Holds(b, k) {
          assert Holds(q.live[n], k);
        } else {
          assert q.bits[k] == p.bits[k];
          assert forall i :: 0 <= i < n ==> q.live[i] == p.live[i];
        }
      }
    } else {
      var k :| r <= k < r + num && p.bits[k];
      var i :| 0 <= i < n && Holds(p.live[i], k);
      assert !Apart(q.live[i], q.live[n]);
    }
  }

  lemma ClearRunIsApart(p: Pool, nr: nat, i: nat, b: Block)
    requires Consistent(p, nr) && i < |p.live| && b.loc + b.num <= nr && Run(p.bits, b.loc, b.num, false)
    ensures Apart(p.live[i], b)
  {
    var k := Max(p.live[i].loc, b.loc);
    SharedUnit(p.live[i], b);
    assert Holds(p.live[i], k) ==> p.bits[k];
  }

  lemma SharedUnit(a: Block, b: Block)
    ensures Apart(a, b) || (Holds(a, Max(a.loc, b.loc)) && Holds(b, Max(a.loc, b.loc)))
  {
  }

  /** Allocation keeps the pool consistent with the meant test always; with the test as written exactly
      when it fails or the run at 0, which it always gives out, is clear. */
  lemma AllocKeepsConsistent(test: Test, p: Pool, nr: nat, num: nat)
    requires Consistent(p, nr)
    ensures Consistent(Alloc(test, p, nr, num), nr) <==> test.AsMeant? || num >= nr || Run(p.bits, 0, num, false)
  {
    FirstFitIsLowest(test, p.bits, nr, num, 0, 0);
    WrittenSearchIsBlind(p.bits, nr, num);
    var r := FirstFit(test, p.bits, nr, num, 0);
    if r >= 0 {
      GiveKeepsConsistent(p, nr, r, num);
    }
  }

  /** Two allocations in a row show it: the second gets the first one's memory. */
  lemma WrittenTestGivesTwice(p: Pool, nr: nat, num: nat)
    requires Consistent(p, nr) && p.live == [] && 0 < num < nr
    ensures var q := Alloc(AsWritten, Alloc(AsWritten, p, nr, num), nr, num);
            q.live == [Block(0, num), Block(0, num)] && !Consistent(q, nr)
  {
    WrittenSearchIsBlind(p.bits, nr, num);
    WrittenSearchIsBlind(Alloc(AsWritten, p, nr, num).bits, nr, num);
    var q := Alloc(AsWritten, Alloc(AsWritten, p, nr, num), nr, num);
    assert q.live == [Block(0, num), Block(0, num)];
    assert !Apart(q.live[0], q.live[1]);
  }

  lemma FreeKeepsConsistent(p: Pool, nr: nat, i: nat)
    requires Consistent(p, nr) && i < |p.live|
    ensures Consistent(Free(p, i), nr)
  {
    var q := Free(p, i);
    var b := p.live[i];
    assert forall j :: 0 <= j < |q.live| ==> q.live[j] == p.live[if j < i then j else j + 1];
    forall k | 0 <= k < nr
      ensures q.bits[k] <==> exists j :: 0 <= j < |q.live| && Holds(q.live[j], k)
    {
      if p.bits[k] && !Holds(b, k) {
        var j :| 0 <= j < |p.live| && Holds(p.live[j], k);
        assert Holds(q.live[if j < i then j else j - 1], k);
      }
      if j :| 0 <= j < |q.live| && Holds(q.live[j], k) {
        var j' := if j < i then j else j + 1;
        assert Holds(p.live[j'], k) && (if j' < i then Apart(p.live[j'], p.live[i]) else Apart(p.live[i], p.live[j']));
      }
    }
  }

  datatype Op = DoAlloc(num: nat) | DoFree(i: nat)

  ghost function RunAll(p: Pool, nr: nat, ops: seq<Op>): Pool
    requires nr <= |p.bits|
    ensures |RunAll(p, nr, ops).bits| == |p.bits|
  {
    if ops == [] then p else
    var q := RunAll(p, nr, ops[..|ops| - 1]);
    match ops[|ops| - 1]
    case DoAlloc(num) => Alloc(AsMeant, q, nr, num)
    case DoFree(i) => if i < |q.live| then Free(q, i) else q
  }

  /** Every run of allocations and correctly sized frees. */
  lemma {:induction false} RunKeepsConsistent(p: Pool, nr: nat, ops: seq<Op>)
    requires Consistent(p, nr)
    ensures Consistent(RunAll(p, nr, ops), nr)
  {
    hide Consistent, Alloc, Free;
    Sized(p, nr);
    if ops != [] {
      var front := ops[..|ops| - 1];
      RunKeepsConsistent(p, nr, front);
      var q := RunAll(p, nr, front);
      match ops[|ops| - 1]
      case DoAlloc(num) => AllocKeepsConsistent(AsMeant, q, nr, num);
      case DoFree(i) =>
        if i < |q.live| {
          FreeKeepsConsistent(q, nr, i);
        }
    }
  }

  lemma Sized(p: Pool, nr: nat)
    requires Consistent(p, nr)
    ensures nr <= |p.bits|
  {
  }

  /** Freeing what was just allocated restores the pool. */
  lemma FreeUndoesAlloc(p: Pool, nr: nat, num: nat)
    requires nr <= |p.bits| && Alloc(AsMeant, p, nr, num) != p
    ensures Free(Alloc(AsMeant, p, nr, num), |p.live|) == p
  {
    FirstFitIsLowest(AsMeant, p.bits, nr, num, 0, 0);
    var r := FirstFit(AsMeant, p.bits, nr, num, 0);
    ClearUndoesSet(p.bits, r, num);
    assert (p.live + [Block(r, num)])[..|p.live|] == p.live;
  }

  // ----- bytes -----

  /** The least number of shards that has room for so many bytes. */
  function Shards(size: nat): (r: nat)
    ensures 16 * r - 16 < size <= 16 * r
  {
    (size + KMEM_SHARD_SIZE - 1) / KMEM_SHARD_SIZE
  }

  /** No byte belongs to two live allocations, and each one's bytes lie inside the pool. */
  lemma BytesAreApart(p: Pool, nr: nat, base: nat, i: nat, j: nat, size: nat, other: nat, x: nat, y: nat)
    requires Consistent(p, nr) && i < |p.live| && j < |p.live| && i != j
    requires p.live[i].num == Shards(size) && p.live[j].num == Shards(other)
    requires x < size && y < other
    ensures base <= base + KMEM_SHARD_SIZE * p.live[i].loc + x < base + KMEM_SHARD_SIZE * nr
    ensures base + KMEM_SHARD_SIZE * p.live[i].loc + x != base + KMEM_SHARD_SIZE * p.live[j].loc + y
  {
    assert if i < j then Apart(p.live[i], p.live[j]) else Apart(p.live[j], p.live[i]);
  }

  // ----- the code -----

  /** A bitmap, the address of its unit 0 and the size of a unit: the pages from KMEM_ADDR, and the shards. */
  class UnitPool {
    const bitmap: Bitmap
    const base: nat
    const unit: nat
    ghost var live: seq<Block>

    ghost predicate Valid()
      reads this, bitmap.bytes
    {
      bitmap.Valid() && base > 0 && unit > 0 && Consistent(Value(), bitmap.nrEntry)
    }

    ghost function Value(): Pool
      reads this, bitmap.bytes
    {
      Pool(Bits(bitmap.bytes[..]), live)
    }

    constructor (nr: nat, bytes: array<bv8>, base: nat, unit: nat)
      requires 1 <= nr && (nr - 1) / 8 < bytes.Length && base > 0 && unit > 0
      modifies bytes
      ensures Valid() && live == [] && this.base == base && this.unit == unit
      ensures fresh(bitmap) && bitmap.nrEntry == nr && bitmap.bytes == bytes
    {
      bitmap := new Bitmap(nr, bytes);
      this.base := base;
      this.unit := unit;
      live := [];
    }

    /** kpage_alloc, and kmalloc once it has counted its shards: an address, or 0 exactly when no clear run
        ends before the last entry. */
    method AllocUnits(test: Test, num: nat) returns (addr: nat)
      requires Valid()
      modifies this`live, bitmap.bytes
      ensures Value() == Alloc(test, old(Value()), bitmap.nrEntry, num)
      ensures Valid() <==> test.AsMeant? || num >= bitmap.nrEntry || Run(old(Bits(bitmap.bytes[..])), 0, num, false)
      ensures addr == 0 <==> FirstFit(test, old(Bits(bitmap.bytes[..])), bitmap.nrEntry, num, 0) < 0
      ensures addr != 0 ==> |live| == |old(live)| + 1 && addr == base + unit * live[|live| - 1].loc
                            && live[|live| - 1].num == num
    {
      hide FirstFit, Run, Bits, Filled, Consistent;
      Sized(Value(), bitmap.nrEntry);
      AllocKeepsConsistent(test, Value(), bitmap.nrEntry, num);
      FirstFitIsLowest(test, Bits(bitmap.bytes[..]), bitmap.nrEntry, num, 0, 0);
      var loc := bitmap.FindFree(test, num);
      if loc < 0 {
        return 0;
      }
      FilledTwice(old(Bits(bitmap.bytes[..])), loc, num);
      bitmap.Set(loc, num);
      live := live + [Block(loc, num)];
      addr := base + unit * loc;
    }

    /** kpage_free and __kfree of a live block with its own size. */
    method FreeUnits(addr: nat, num: nat, ghost i: nat)
      requires Valid() && i < |live| && addr == base + unit * live[i].loc && num == live[i].num
      modifies this`live, bitmap.bytes
      ensures Valid() && Value() == Free(old(Value()), i)
    {
      FreeKeepsConsistent(Value(), bitmap.nrEntry, i);
      UnitOf(live[i].loc, unit);
      var loc := (addr - base) / unit;
      bitmap.Clear(loc, num);
      live := live[..i] + live[i + 1..];
    }
  }

  lemma FilledTwice(s: seq<bool>, loc: nat, num: nat)
    ensures Filled(Filled(s, loc, num, true), loc, num, true) == Filled(s, loc, num, true)
  {
  }

  lemma UnitOf(loc: nat, unit: nat)
    requires unit > 0
    ensures unit * loc / unit == loc
  {
    DivModIs(unit * loc, unit, loc, 0);
  }

  /** kmalloc. */
  method Kmalloc(pool: UnitPool, test: Test, size: nat) returns (addr: nat)
    requires pool.Valid() && pool.unit == KMEM_SHARD_SIZE && size <= INT_MAX - KMEM_SHARD_SIZE
    modifies pool`live, pool.bitmap.bytes
    ensures pool.Value() == Alloc(test, old(pool.Value()), pool.bitmap.nrEntry, Shards(size))
    ensures test.AsMeant? ==> pool.Valid()
    ensures addr == 0 <==> FirstFit(test, old(Bits(pool.bitmap.bytes[..])), pool.bitmap.nrEntry, Shards(size), 0) < 0
    ensures addr != 0 ==> |pool.live| == |old(pool.live)| + 1
                          && addr == pool.base + KMEM_SHARD_SIZE * pool.live[|pool.live| - 1].loc
  {
    var num := (size + KMEM_SHARD_SIZE - 1) / KMEM_SHARD_SIZE;
    addr := pool.AllocUnits(test, num);
  }

  /** __kfree of a live block, with the size it was allocated with. */
  method Kfree(pool: UnitPool, addr: nat, size: nat, ghost i: nat)
    requires pool.Valid() && pool.unit == KMEM_SHARD_SIZE && size <= INT_MAX - KMEM_SHARD_SIZE
    requires i < |pool.live| && addr == pool.base + KMEM_SHARD_SIZE * pool.live[i].loc
    requires Shards(size) == pool.live[i].num
    modifies pool`live, pool.bitmap.bytes
    ensures pool.Valid() && pool.Value() == Free(old(pool.Value()), i)
  {
    pool.FreeUnits(addr, (size + KMEM_SHARD_SIZE - 1) / KMEM_SHARD_SIZE, i);
  }

  /** init_kmem: the shards live in the first pages.  The map arrays must have a byte for every eight entries. */
  method InitKmem(pageMap: array<bv8>, shardMap: array<bv8>, test: Test) returns (pages: UnitPool, shards: UnitPool)
    requires pageMap.Length >= KMEM_NUM_PAGES / 8 && shardMap.Length >= KMEM_NUM_SHARD / 8 && pageMap != shardMap
    modifies pageMap, shardMap
    ensures pages.Valid() && pages.live == [Block(0, KMEM_SHARD_PAGES)] && shards.Valid() && shards.live == []
    ensures pages.base == KMEM_ADDR && pages.unit == KMEM_PAGE_SIZE && pages.bitmap.nrEntry == KMEM_NUM_PAGES
    ensures shards.base == KMEM_ADDR && shards.unit == KMEM_SHARD_SIZE && shards.bitmap.nrEntry == KMEM_NUM_SHARD
    ensures shards.unit * shards.bitmap.nrEntry == KMEM_SHARD_PAGES * pages.unit
  {
    pages := new UnitPool(KMEM_NUM_PAGES, pageMap, KMEM_ADDR, KMEM_PAGE_SIZE);
    FreshPool(pages.Value(), test);
    var addr := pages.AllocUnits(test, KMEM_SHARD_PAGES);
    shards := new UnitPool(KMEM_NUM_SHARD, shardMap, addr, KMEM_SHARD_SIZE);
  }

  lemma FreshPool(p: Pool, test: Test)
    requires Consistent(p, KMEM_NUM_PAGES) && p.live == []
    ensures Run(p.bits, 0, KMEM_SHARD_PAGES, false)
    ensures Alloc(test, p, KMEM_NUM_PAGES, KMEM_SHARD_PAGES).live == [Block(0, KMEM_SHARD_PAGES)]
  {
    FirstFitIsLowest(test, p.bits, KMEM_NUM_PAGES, KMEM_SHARD_PAGES, 0, 0);
  }
}
