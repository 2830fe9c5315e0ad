/** filesys/filesys.c and device/block.c: the mounted file system, its link table and its allocator. */
module FileSystem {
  import opened Types
  import opened Volume
  import opened VolumeFacts

  /** The table sector at which a scan starts. */
  function FirstSector(last: nat, total: nat): nat
    requires total > 0
  {
    (last + 1) % total / ENTRIES_PER_SECTOR
  }

  lemma FirstSectorInTable(last: nat, total: nat, sectors: nat)
    requires 0 < total <= ENTRIES_PER_SECTOR * sectors
    ensures FirstSector(last, total) < sectors
  {
    assert (last + 1) % total < total;
  }

  lemma NextSector(s: nat, sectors: nat)
    requires s < sectors
    ensures (s + 1) % sectors == if s + 1 < sectors then s + 1 else 0
  {
    if s + 1 == sectors { assert sectors % sectors == 0; }
  }

  /** Sectors passed when walking upwards (cyclically) from `first` to `s`. */
  function Distance(first: nat, s: nat, sectors: nat): int {
    if s >= first then s - first else s + sectors - first
  }

  /** e comes before (or is) f when the table is scanned sector by sector from `first`, wrapping. */
  predicate ScannedBefore(first: nat, sectors: nat, e: nat, f: nat) {
    var d, d' := Distance(first, e / ENTRIES_PER_SECTOR, sectors), Distance(first, f / ENTRIES_PER_SECTOR, sectors);
    d < d' || (d == d' && e <= f)
  }

  /** The table once entry e is claimed as the last block of a chain, linked behind `prev` if there is one. */
  function Claimed(t: seq<u32>, e: u32, prev: u32): (r: seq<u32>)
    requires e < |t| && (prev == LAST_BLOCK || prev < |t|)
    ensures |r| == |t|
  {
    var t' := t[e := LAST_BLOCK];
    if prev == LAST_BLOCK then t' else t'[prev := e]
  }

  ghost predicate NoFreeEntry(t: seq<u32>) {
    forall e :: 0 <= e < |t| ==> t[e] != FREE_BLOCK
  }

  /** Sector s of the table holds no free entry among its first n. */
  ghost predicate SectorTaken(t: seq<u32>, s: nat, n: nat) {
    forall e :: ENTRIES_PER_SECTOR * s <= e < ENTRIES_PER_SECTOR * s + n && e < |t| ==> t[e] != FREE_BLOCK
  }

  /** The first `i` sectors of the cyclic scan hold no free entry. */
  ghost predicate ScannedTaken(t: seq<u32>, first: nat, sectors: nat, i: nat) {
    forall s: nat {:trigger SectorTaken(t, s, ENTRIES_PER_SECTOR)} ::
      s < sectors && Distance(first, s, sectors) < i ==> SectorTaken(t, s, ENTRIES_PER_SECTOR)
  }

  lemma ScanCoversTable(t: seq<u32>, first: nat, sectors: nat)
    requires |t| == ENTRIES_PER_SECTOR * sectors && first < sectors && ScannedTaken(t, first, sectors, sectors)
    ensures NoFreeEntry(t)
  {
    forall e: nat | e < |t| ensures t[e] != FREE_BLOCK {
      assert SectorTaken(t, e / ENTRIES_PER_SECTOR, ENTRIES_PER_SECTOR);
    }
  }

  lemma ScanStep(t: seq<u32>, first: nat, sectors: nat, i: nat, s: nat)
    requires first < sectors && s < sectors && Distance(first, s, sectors) == i
    requires ScannedTaken(t, first, sectors, i) && SectorTaken(t, s, ENTRIES_PER_SECTOR)
    ensures ScannedTaken(t, first, sectors, i + 1)
  {
  }

  lemma FoundFirst(t: seq<u32>, first: nat, sectors: nat, i: nat, s: nat, j: nat)
    requires |t| == ENTRIES_PER_SECTOR * sectors && first < sectors && s < sectors && j < ENTRIES_PER_SECTOR
    requires Distance(first, s, sectors) == i && ScannedTaken(t, first, sectors, i) && SectorTaken(t, s, j)
    ensures forall e :: 0 <= e < |t| && t[e] == FREE_BLOCK ==>
              ScannedBefore(first, sectors, ENTRIES_PER_SECTOR * s + j, e)
  {
    assert (ENTRIES_PER_SECTOR * s + j) / ENTRIES_PER_SECTOR == s;
    forall e | 0 <= e < |t| && t[e] == FREE_BLOCK ensures ScannedBefore(first, sectors, ENTRIES_PER_SECTOR * s + j, e) {
      var s' := e / ENTRIES_PER_SECTOR;
      assert !SectorTaken(t, s', ENTRIES_PER_SECTOR);
      assert Distance(first, s', sectors) == i ==> s' == s;
    }
  }

  // ----- the entries behind the last block -----

  /** Format leaves them free; a table in which they are used shows the same links. */
  ghost function Sealed(t: seq<u32>, total: nat): (r: seq<u32>)
    ensures |r| == |t|
  {
    seq(|t|, e requires 0 <= e < |t| => if e >= total && t[e] == FREE_BLOCK then LAST_BLOCK else t[e])
  }

  /** Some entry that belongs to no block is free. */
  ghost predicate Padded(t: seq<u32>, total: nat) {
    exists e :: total <= e < |t| && t[e] == FREE_BLOCK
  }

  /** The free blocks that the scan meets before it comes to such an entry. */
  ghost function Ahead(t: seq<u32>, total: nat, last: nat): set<u32>
    requires 0 < total <= |t|
  {
    set e | e in FreeSet(t, total) && e / ENTRIES_PER_SECTOR >= FirstSector(last, total)
  }

  lemma SealedIsSame(t: seq<u32>, total: nat)
    ensures !Padded(t, total) ==> Sealed(t, total) == t
    ensures forall e :: 0 <= e < |t| && e < total ==> Sealed(t, total)[e] == t[e]
    ensures forall e :: total <= e < |t| ==> Sealed(t, total)[e] != FREE_BLOCK
    ensures total <= |t| ==> FreeSet(Sealed(t, total), total) == FreeSet(t, total)
  {
  }

  lemma SealedUpdate(t: seq<u32>, total: nat, e: nat, data: u32)
    requires e < |t| && e < total
    ensures Sealed(t[e := data], total) == Sealed(t, total)[e := data]
    ensures Padded(t[e := data], total) <==> Padded(t, total)
  {
    forall f | total <= f < |t| ensures t[e := data][f] == t[f] {}
  }

  lemma SealedClaimed(t: seq<u32>, total: nat, e: u32, prev: u32)
    requires e < |t| && e < total && (prev == LAST_BLOCK || (prev < |t| && prev < total))
    ensures Sealed(Claimed(t, e, prev), total) == Claimed(Sealed(t, total), e, prev)
    ensures Padded(Claimed(t, e, prev), total) <==> Padded(t, total)
  {
    SealedUpdate(t, total, e, LAST_BLOCK);
    if prev != LAST_BLOCK { SealedUpdate(t[e := LAST_BLOCK], total, prev, e); }
  }

  lemma SealedFreed(t: seq<u32>, total: nat, c: seq<u32>)
    requires forall i :: 0 <= i < |c| ==> c[i] < total
    ensures Sealed(Freed(t, c), total) == Freed(Sealed(t, total), c)
    ensures Padded(Freed(t, c), total) <==> Padded(t, total)
  {
    forall f | total <= f < |t| ensures Freed(t, c)[f] == t[f] {}
  }

  /** From a block ahead, the scan goes on to the entries behind the last block before it wraps. */
  lemma BlocksComeFirst(first: nat, sectors: nat, total: nat, e: nat, f: nat)
    requires e < total <= f < ENTRIES_PER_SECTOR * sectors && first <= e / ENTRIES_PER_SECTOR
    ensures ScannedBefore(first, sectors, e, f) && !ScannedBefore(first, sectors, f, e)
  {
    assert e / ENTRIES_PER_SECTOR <= f / ENTRIES_PER_SECTOR;
  }

  lemma BlockIsAhead(first: nat, sectors: nat, total: nat, e: nat, f: nat)
    requires e < total <= f < ENTRIES_PER_SECTOR * sectors && first <= (total - 1) / ENTRIES_PER_SECTOR
    requires ScannedBefore(first, sectors, e, f)
    ensures first <= e / ENTRIES_PER_SECTOR
  {
    assert (total - 1) / ENTRIES_PER_SECTOR <= f / ENTRIES_PER_SECTOR < sectors;
  }

  lemma FirstIsInside(last: nat, total: nat)
    requires total > 0
    ensures FirstSector(last, total) <= (total - 1) / ENTRIES_PER_SECTOR
  {
    assert (last + 1) % total <= total - 1;
  }

  /** The entry that the allocator hands out belongs to no block exactly when no free block lies ahead. */
  lemma PaddingIsHandedOut(t: seq<u32>, total: nat, last: nat, sectors: nat, r: u32)
    requires |t| == ENTRIES_PER_SECTOR * sectors && 0 < total <= |t| && Padded(t, total)
    requires r < |t| && t[r] == FREE_BLOCK
    requires forall e :: 0 <= e < |t| && t[e] == FREE_BLOCK ==> ScannedBefore(FirstSector(last, total), sectors, r, e)
    ensures Ahead(t, total, last) != {} ==> r < total
    ensures t[0] != FREE_BLOCK ==> (r >= total <==> Ahead(t, total, last) == {})
  {
    hide ScannedBefore, FirstSector;
    var first := FirstSector(last, total);
    FirstIsInside(last, total);
    var f: nat :| total <= f < |t| && t[f] == FREE_BLOCK;
    if r < total {
      BlockIsAhead(first, sectors, total, r, f);
      assert t[0] != FREE_BLOCK ==> r in Ahead(t, total, last);
    } else {
      forall e: nat | e < total && first <= e / ENTRIES_PER_SECTOR ensures !ScannedBefore(first, sectors, r, e) {
        BlocksComeFirst(first, sectors, total, e, r);
      }
      assert forall e: u32 :: e in FreeSet(t, total) && e / ENTRIES_PER_SECTOR >= first ==> false;
    }
  }

  /** While there is room it is a block. */
  lemma RoomIsForBlocks(t: seq<u32>, total: nat, last: nat, sectors: nat, r: u32, tight: bool, room: int)
    requires |t| == ENTRIES_PER_SECTOR * sectors && 0 < total <= |t| && r < |t| && t[r] == FREE_BLOCK
    requires if tight then !Padded(t, total) else 0 < room <= |Ahead(t, total, last)|
    requires forall e :: 0 <= e < |t| && t[e] == FREE_BLOCK ==> ScannedBefore(FirstSector(last, total), sectors, r, e)
    ensures r < total
  {
    hide ScannedBefore, FirstSector, Ahead;
    if Padded(t, total) { PaddingIsHandedOut(t, total, last, sectors, r); }
  }

  lemma ScannedIsLower(first: nat, sectors: nat, r: nat, e: nat)
    requires r < ENTRIES_PER_SECTOR * sectors && e < ENTRIES_PER_SECTOR * sectors && r != e
    requires ScannedBefore(first, sectors, r, e) && e / ENTRIES_PER_SECTOR >= first
    ensures r < e
  {
  }

  /** The scan starts at the sector of the entry behind the last one claimed, or, behind the last block, at sector 0. */
  lemma NextFirst(r: nat, total: nat)
    requires r < total
    ensures FirstSector(r, total) == if r + 1 < total then (r + 1) / ENTRIES_PER_SECTOR else 0
  {
    if r + 1 < total { Small(r + 1, total); } else { assert total % total == 0; }
  }

  lemma Small(x: nat, n: nat)
    requires x < n
    ensures x % n == x
  {
  }

  lemma StaysAhead(last: nat, sectors: nat, total: nat, r: nat, e: nat)
    requires r < total && e < total <= ENTRIES_PER_SECTOR * sectors && r != e
    requires ScannedBefore(FirstSector(last, total), sectors, r, e)
    requires e / ENTRIES_PER_SECTOR >= FirstSector(last, total)
    ensures e / ENTRIES_PER_SECTOR >= FirstSector(r, total)
  {
    hide FirstSector, ScannedBefore;
    ScannedIsLower(FirstSector(last, total), sectors, r, e);
    NextFirst(r, total);
  }

  /** Claiming the first free block takes at most that one from those ahead. */
  lemma AheadAfterClaim(t: seq<u32>, total: nat, last: nat, sectors: nat, r: u32, prev: u32)
    requires |t| == ENTRIES_PER_SECTOR * sectors && 0 < total <= |t|
    requires r < total && r < |t| && t[r] == FREE_BLOCK && (prev == LAST_BLOCK || (prev < |t| && t[prev] != FREE_BLOCK))
    requires forall e :: 0 <= e < |t| && t[e] == FREE_BLOCK ==> ScannedBefore(FirstSector(last, total), sectors, r, e)
    ensures |Ahead(Claimed(t, r, prev), total, r)| >= |Ahead(t, total, last)| - 1
  {
    hide ScannedBefore, FirstSector;
    var t', was := Claimed(t, r, prev), Ahead(t, total, last);
    var now := Ahead(t', total, r);
    forall e | e in was - {r} ensures e in now { StaysAhead(last, sectors, total, r, e); }
    Least(was, r, now);
  }

  lemma Least(was: set<u32>, r: u32, now: set<u32>)
    requires was - {r} <= now
    ensures |now| >= |was| - 1
  {
    assert now == (was - {r}) + (now - (was - {r}));
  }

  lemma AheadAfterFreeing(t: seq<u32>, total: nat, last: nat, t': seq<u32>)
    requires 0 < total <= |t| == |t'| && forall e :: 0 <= e < |t| && t[e] == FREE_BLOCK ==> t'[e] == FREE_BLOCK
    ensures |Ahead(t', total, last)| >= |Ahead(t, total, last)|
  {
    var was, now := Ahead(t, total, last), Ahead(t', total, last);
    assert was <= now;
    assert now == was + (now - was);
  }

  class FileSys {
    var mounted: bool
    var metadataSectors: nat
    var total: nat
    var lastAllocated: nat
    // The disk, seen through the layout that mount computes.
    var table: seq<u32>
    var blocks: seq<Block>
    var dir: seq<Dentry>
    ghost var shape: Shape
    ghost const tight: bool  // no entry without a block is free
    ghost var room: int      // so many free blocks, at least, lie ahead

    /** The links. */
    ghost function Table(): (t: seq<u32>)
      reads this`table, this`total
      ensures |t| == |table|
    {
      Sealed(table, total)
    }

    ghost function Disk(): Vol
      reads this
    {
      Volume.Vol(Table(), total, blocks, dir)
    }

    /** The table fills whole sectors and has an entry for every block. */
    ghost predicate Fits()
      reads this`table, this`total, this`metadataSectors, this`lastAllocated
    {
      0 < total <= |table| < LAST_BLOCK && |table| == ENTRIES_PER_SECTOR * metadataSectors && lastAllocated < |table|
    }

    /** And tight and room say what they should. */
    ghost predicate Laid()
      reads this`table, this`total, this`metadataSectors, this`lastAllocated, this`room
    {
      Fits() && (if tight then !Padded(table, total) else room <= |Ahead(table, total, lastAllocated)|)
    }

    ghost predicate Valid()
      reads this
    {
      mounted && Laid() && WellFormed(Disk(), shape)
    }

    /** The next n blocks claimed are blocks indeed. */
    ghost predicate Roomy(n: int)
      reads this`room
    {
      tight || n <= room
    }

    ghost function Free(): set<u32>
      requires Laid()
      reads this
    {
      FreeSet(Table(), total)
    }

    constructor Mount(sectors: nat, t: seq<u32>, n: nat, b: seq<Block>, d: seq<Dentry>, ghost g: Shape)
      requires |t| == ENTRIES_PER_SECTOR * sectors && WellFormed(Volume.Vol(Sealed(t, n), n, b, d), g)
      ensures Valid() && Disk() == Volume.Vol(Sealed(t, n), n, b, d) && shape == g && lastAllocated == 0
      ensures 0 < n <= |t| && (tight <==> !Padded(t, n)) && room == |Ahead(t, n, 0)|
    {
      mounted, metadataSectors, total, lastAllocated := true, sectors, n, 0;
      table, blocks, dir, shape := t, b, d, g;
      tight, room := !Padded(t, n), |Ahead(t, n, 0)|;
    }

    // ----- device/block.c; an access inside the disk succeeds -----

    method BlockRead(index: u32, buf: array<byte>) returns (ok: bool)
      requires index != 0  // block 0 is read as the directory
      requires buf.Length == BLOCK_SIZE
      modifies buf
      ensures ok <==> index < |blocks|
      ensures ok ==> buf[..] == blocks[index]
      ensures !ok ==> buf[..] == old(buf[..])
    {
      if index >= |blocks| { return false; }
      forall i | 0 <= i < BLOCK_SIZE { buf[i] := blocks[index][i]; }
      assert buf[..] == blocks[index];
      return true;
    }

    method BlockWrite(index: u32, buf: array<byte>) returns (ok: bool)
      requires index != 0  // a write here would destroy the directory
      requires buf.Length == BLOCK_SIZE
      modifies this`blocks
      ensures ok <==> index < |blocks|
      ensures blocks == if index < |old(blocks)| then old(blocks)[index := buf[..]] else old(blocks)
    {
      if index >= |blocks| { return false; }
      blocks := blocks[index := buf[..]];
      return true;
    }

    // ----- the link table -----

    method ReadMetadataSector(offset: nat) returns (buf: seq<u32>)
      requires Fits() && offset < metadataSectors
      ensures buf == table[ENTRIES_PER_SECTOR * offset..ENTRIES_PER_SECTOR * (offset + 1)]
    {
      buf := table[ENTRIES_PER_SECTOR * offset..ENTRIES_PER_SECTOR * (offset + 1)];
    }

    method SetMte(index: u32, data: u32)
      requires Fits() && index < |table|  // one entry further would overwrite the directory
      modifies this`table
      ensures Fits() && table == old(table)[index := data]
      ensures index < total ==> Table() == old(Table())[index := data]
      ensures old(Laid()) && index < total && (data == FREE_BLOCK || old(table)[index] != FREE_BLOCK) ==> Laid()
    {
      hide Sealed, Ahead, Padded;
      ghost var before := table;
      if index < total { SealedUpdate(table, total, index, data); }
      var sector := index / ENTRIES_PER_SECTOR;
      var buf := ReadMetadataSector(sector);
      buf := buf[index % ENTRIES_PER_SECTOR := data];
      table := table[..ENTRIES_PER_SECTOR * sector] + buf + table[ENTRIES_PER_SECTOR * (sector + 1)..];
      assert table == before[index := data];
      if data == FREE_BLOCK || before[index] != FREE_BLOCK { AheadAfterFreeing(before, total, lastAllocated, table); }
    }

    /** The guard lets the first sector behind the table through; what is read there is not a link. */
    method GetMte(index: u32) returns (ok: bool, data: u32)
      requires Fits()
      ensures index < |table| ==> ok && data == table[index]
      ensures index < total ==> ok && data == Table()[index]
      ensures !ok <==> index / ENTRIES_PER_SECTOR > metadataSectors
    {
      SealedIsSame(table, total);
      var sector := index / ENTRIES_PER_SECTOR;
      if sector > metadataSectors { return false, 0; }
      if sector == metadataSectors {
        data := *;
        return true, data;
      }
      var buf := ReadMetadataSector(sector);
      return true, buf[index % ENTRIES_PER_SECTOR];
    }

    /** What the scan does with the free entry it found. */
    method Claim(r: u32, prev: u32)
      requires Fits() && r < |table| && (prev == LAST_BLOCK || prev < |table|)
      modifies this`table, this`lastAllocated
      ensures Fits() && lastAllocated == r && table == Claimed(old(table), r, prev)
    {
      hide Sealed;
      lastAllocated := r;
      SetMte(r, LAST_BLOCK);
      if prev != LAST_BLOCK {
        SetMte(prev, r);
      }
    }

    /** The inner loop of the allocator's scan. */
    method FirstFreeInSector(sector: nat) returns (j: nat)
      requires Fits() && sector < metadataSectors
      ensures j <= ENTRIES_PER_SECTOR && SectorTaken(table, sector, j)
      ensures j < ENTRIES_PER_SECTOR ==> table[ENTRIES_PER_SECTOR * sector + j] == FREE_BLOCK
    {
      var buf := ReadMetadataSector(sector);
      j := 0;
      while j < ENTRIES_PER_SECTOR && buf[j] != FREE_BLOCK
        invariant j <= ENTRIES_PER_SECTOR && SectorTaken(table, sector, j)
      {
        j := j + 1;
      }
    }

    /** The wrap-around scan looks at every table sector once: it fails exactly when nothing is free,
        and otherwise claims the first free entry in scan order, touching only it and its predecessor. */
    method AllocBlock(prev: u32) returns (r: u32)
      requires Fits() && (prev == LAST_BLOCK || prev < |table|)
      modifies this`table, this`lastAllocated, this`room
      ensures Fits()
      ensures r == LAST_BLOCK <==> !mounted || NoFreeEntry(old(table))
      ensures r == LAST_BLOCK ==> table == old(table) && lastAllocated == old(lastAllocated) && room == old(room)
      ensures r != LAST_BLOCK ==>
                r < |old(table)| && old(table)[r] == FREE_BLOCK && lastAllocated == r && room == old(room) - 1
                && table == Claimed(old(table), r, prev)
      ensures r != LAST_BLOCK ==>
                var first := FirstSector(old(lastAllocated), total);
                forall e :: 0 <= e < |table| && old(table)[e] == FREE_BLOCK ==>
                    ScannedBefore(first, metadataSectors, r, e)
    {
      if !mounted { return LAST_BLOCK; }
      var first := FirstSector(lastAllocated, total);
      FirstSectorInTable(lastAllocated, total, metadataSectors);
      var current := first;
      for i := 0 to metadataSectors
        invariant 0 <= current < metadataSectors && table == old(table) && lastAllocated == old(lastAllocated)
        invariant room == old(room)
        invariant current == if first + i < metadataSectors then first + i else first + i - metadataSectors
        invariant ScannedTaken(table, first, metadataSectors, i)
      {
        var j := FirstFreeInSector(current);
        if j < ENTRIES_PER_SECTOR {
          r := ENTRIES_PER_SECTOR * current + j;
          FoundFirst(table, first, metadataSectors, i, current, j);
          Claim(r, prev);
          room := room - 1;
          return;
        }
        ScanStep(table, first, metadataSectors, i, current);
        NextSector(current, metadataSectors);
        current := (current + 1) % metadataSectors;
      }
      ScanCoversTable(table, first, metadataSectors);
      return LAST_BLOCK;
    }

    /** The same, while there is room: what it hands out is a block; without room it can be an entry behind the last
        one. */
    method AllocDataBlock(prev: u32) returns (r: u32)
      requires mounted && Laid() && Roomy(1) && (prev == LAST_BLOCK || (prev < total && Table()[prev] != FREE_BLOCK))
      modifies this`table, this`lastAllocated, this`room
      ensures Laid()
      ensures r == LAST_BLOCK <==> NoFreeEntry(old(Table()))
      ensures r == LAST_BLOCK ==> Table() == old(Table()) && room == old(room)
      ensures r != LAST_BLOCK ==>
                r < total && old(Table())[r] == FREE_BLOCK && Table() == Claimed(old(Table()), r, prev)
                    && room == old(room) - 1
    {
      hide Sealed, Ahead, Padded, Claimed, ScannedBefore, FirstSector;
      ghost var t, last := table, lastAllocated;
      SealedIsSame(t, total);
      r := AllocBlock(prev);
      if r != LAST_BLOCK {
        RoomIsForBlocks(t, total, last, metadataSectors, r, tight, old(room));
        SealedClaimed(t, total, r, prev);
        AheadAfterClaim(t, total, last, metadataSectors, r, prev);
      }
    }

    /** Frees the chain c that starts at `index`; the walk ends because c does. */
    method FreeBlocksAll(index: u32, ghost c: seq<u32>) returns (ok: bool)
      requires Laid() && Walk(Table(), c) && index == (if c == [] then LAST_BLOCK else c[0])
      requires forall i, j :: 0 <= i < j < |c| ==> c[i] != c[j]
      requires forall i :: 0 <= i < |c| ==> c[i] < total
      modifies this`table
      ensures ok && Laid() && Table() == Freed(old(Table()), c)
    {
      hide Sealed, Ahead, Padded;
      SealedIsSame(table, total);
      SealedFreed(table, total, c);
      var current := index;
      ghost var i := 0;
      while current != LAST_BLOCK
        invariant i <= |c| && current == (if i < |c| then c[i] else LAST_BLOCK)
        invariant |table| == |old(table)| && Laid()
        invariant table == Freed(old(table), c[..i])
        decreases |c| - i
      {
        ghost var link := Next(c, i);
        assert old(table)[c[i]] == old(Table())[c[i]] == link;
        assert c[i] !in c[..i];
        var got, next := GetMte(current);
        if !got { return false; }
        SetMte(current, FREE_BLOCK);
        assert c[..i + 1] == c[..i] + [c[i]];
        current := next;
        i := i + 1;
      }
      ghost var link := Next(c, i);
      assert i == |c|;
      assert c[..i] == c;
      return true;
    }
  }
}
