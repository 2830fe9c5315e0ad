/** filesys/filesys.c (format, mount) and device/block.c over an abstract disk of 512-byte sectors. */
module Format {
  import Strings
  import opened Types
  import opened Volume
  import opened VolumeFacts
  import opened FileSystem

  const FS_MAGIC: u32 := 0x7E38_CF10
  const SECTORS_PER_BLOCK := 8
  const SECTOR_WORDS := 128

  datatype Mbr = Mbr(magic: u32, reserved: u32, metadataSectors: u32, totalBlocks: u32)

  /** A sector as 128 little-endian words. */
  type Sector = s: seq<u32> | |s| == SECTOR_WORDS witness seq(SECTOR_WORDS, _ => 0)

  datatype Sizes = Sizes(metadataSectors: u32, totalBlocks: u32)

  /** The two passes by which format divides a disk, in 32-bit unsigned arithmetic. */
  function Divide(totalSectors: u32): Sizes {
    var guess := totalSectors / SECTORS_PER_BLOCK;
    var metadata := (guess + 127) / 128;
    var data := Wrap(totalSectors - metadata - 1);
    var blocks := data / SECTORS_PER_BLOCK;
    Sizes((blocks + 127) / 128, blocks)
  }

  /** device/block.c: the first sector of a block, given the base that mount computed. */
  function BlockSector(base: u32, index: u32): u32 {
    Wrap(index * SECTORS_PER_BLOCK + base)
  }

  /** The division fits the disk exactly when the disk is not empty (on 0 sectors it underflows). */
  lemma DivisionFits(ts: u32)
    ensures var s := Divide(ts); 1 + s.metadataSectors + SECTORS_PER_BLOCK * s.totalBlocks <= ts <==> ts > 0
  {
  }

  /** The number of blocks is the largest that fits behind the record and the table of the first pass, which has an
      entry for every eighth of the disk's sectors. */
  lemma DivisionIsLargest(ts: u32, first: nat)
    requires ts > 0 && 128 * first - 128 < ts / 8 <= 128 * first
    ensures 1 + first + 8 * Divide(ts).totalBlocks <= ts < 1 + first + 8 * (Divide(ts).totalBlocks + 1)
  {
    hide Wrap;
    assert (ts / 8 + 127) / 128 == first;
    FirstPass(ts, first);
  }

  /** What is left behind the first pass does not underflow. */
  lemma FirstPass(ts: u32, first: nat)
    requires ts > 0 && 128 * first - 128 < ts / 8
    ensures first + 1 <= ts && Wrap(ts - first - 1) == ts - first - 1
  {
  }

  /** There is a table entry for every block, and less than a sector of entries to spare. */
  lemma TableCoversBlocks(ts: u32)
    ensures var s := Divide(ts);
            s.totalBlocks <= ENTRIES_PER_SECTOR * s.metadataSectors < s.totalBlocks + ENTRIES_PER_SECTOR
  {
  }

  /** The master boot record, the table and the blocks occupy pairwise disjoint sector ranges. */
  lemma RegionsAreDisjoint(ts: u32, a: u32, b: u32, i: nat, j: nat)
    requires ts > 0 && i < SECTORS_PER_BLOCK && j < SECTORS_PER_BLOCK
    requires var s := Divide(ts); a < s.totalBlocks && b < s.totalBlocks
    ensures var s := Divide(ts);
            var base := 1 + s.metadataSectors;
            && base < 0x1_0000_0000 && base <= BlockSector(base, a) && BlockSector(base, a) + i < ts
            && (BlockSector(base, a) + i == BlockSector(base, b) + j <==> a == b && i == j)
  {
    DivisionFits(ts);
    var s := Divide(ts);
    var base := 1 + s.metadataSectors;
    NoWrap(base, a, s.totalBlocks, ts);
    NoWrap(base, b, s.totalBlocks, ts);
  }

  lemma NoWrap(base: nat, a: u32, blocks: u32, ts: u32)
    requires a < blocks && base + SECTORS_PER_BLOCK * blocks <= ts
    ensures BlockSector(base, a) == base + SECTORS_PER_BLOCK * a
  {
    assert 0 <= a * SECTORS_PER_BLOCK + base < 0x1_0000_0000;
  }

  /** Every block passes the driver's range check exactly when the disk is strictly larger than its
      layout: the check also turns away the very last sector. */
  lemma LastSectorIsLost(ts: u32)
    requires ts > 0 && Divide(ts).totalBlocks > 0
    ensures var s := Divide(ts);
            var base := 1 + s.metadataSectors;
            base < 0x1_0000_0000 &&
            ((forall b: u32 :: b < s.totalBlocks ==> Wrap(BlockSector(base, b) + SECTORS_PER_BLOCK) < ts)
             <==> base + SECTORS_PER_BLOCK * s.totalBlocks < ts)
  {
    hide Divide, BlockSector, Wrap;
    DivisionFits(ts);
    var s := Divide(ts);
    var base := 1 + s.metadataSectors;
    forall b: u32 | b < s.totalBlocks
      ensures Wrap(BlockSector(base, b) + SECTORS_PER_BLOCK) == base + SECTORS_PER_BLOCK * (b + 1)
    {
      BlockEnd(base, b, s.totalBlocks, ts);
    }
    assert base + SECTORS_PER_BLOCK * s.totalBlocks >= ts ==>
        Wrap(BlockSector(base, s.totalBlocks - 1) + SECTORS_PER_BLOCK) == ts;
  }

  lemma BlockEnd(base: nat, b: u32, blocks: u32, ts: u32)
    requires b < blocks && base + SECTORS_PER_BLOCK * blocks <= ts && base < 0x1_0000_0000
    ensures Wrap(BlockSector(base, b) + SECTORS_PER_BLOCK) == base + SECTORS_PER_BLOCK * (b + 1)
  {
    NoWrap(base, b, blocks, ts);
    assert 0 <= base + SECTORS_PER_BLOCK * (b + 1) < 0x1_0000_0000;
  }

  class Hdd {
    const totalSectors: u32
    var mbr: Mbr
    var sectors: seq<Sector>  // sector 0 is mbr; its entry here is not used

    constructor (n: u32, m: Mbr, s: seq<Sector>)
      requires |s| == n
      ensures totalSectors == n && mbr == m && sectors == s
    {
      totalSectors, mbr, sectors := n, m, s;
    }

    ghost predicate Valid()
      reads this
    {
      |sectors| == totalSectors
    }

    /** The range check of the driver. */
    predicate InRange(lba: u32, count: nat) {
      Wrap(lba + count) < totalSectors
    }

    method WriteSector(lba: u32, buf: Sector) returns (ok: bool)
      requires Valid() && 0 < lba < 0xFFFF_FFFF
      modifies this`sectors
      ensures Valid() && ok == InRange(lba, 1)
      ensures ok ==> lba < |old(sectors)|
      ensures sectors == if ok && lba < |old(sectors)| then old(sectors)[lba := buf] else old(sectors)
    {
      if !InRange(lba, 1) { return false; }
      sectors := sectors[lba := buf];
      return true;
    }

    method ReadMbr() returns (ok: bool, m: Mbr)
      ensures ok == InRange(0, 1) && m == mbr
    {
      return InRange(0, 1), mbr;
    }

    method WriteMbr(m: Mbr) returns (ok: bool)
      modifies this`mbr
      ensures ok == InRange(0, 1) && mbr == if ok then m else old(mbr)
    {
      if !InRange(0, 1) { return false; }
      mbr := m;
      return true;
    }

    /** What the zeroing loop writes to sector lba. */
    static function Blank(lba: nat): Sector {
      var zero := seq(SECTOR_WORDS, _ => 0);
      if lba == 1 then zero[0 := LAST_BLOCK] else zero[0 := FREE_BLOCK]
    }

    /** format: succeeds exactly when table and root directory lie before the last sector; then the
        record describes the division and everything behind it up to the first file block is blank. */
    method Format() returns (ok: bool)
      requires Valid() && totalSectors > 0
      modifies this`mbr, this`sectors
      ensures Valid()
      ensures ok <==> Divide(totalSectors).metadataSectors + SECTORS_PER_BLOCK + 1 < totalSectors
      ensures ok ==> mbr == FreshMbr(totalSectors) && Formatted(sectors, Divide(totalSectors))
    {
      hide Divide, Blank;
      var s := Divide(totalSectors);
      var got, m := ReadMbr();
      if !got { return false; }
      var put := WriteMbr(Mbr(FS_MAGIC, 0, s.metadataSectors, s.totalBlocks));
      if !put { return false; }
      for i := 0 to s.metadataSectors + SECTORS_PER_BLOCK
        invariant Valid() && i + 1 < totalSectors
        invariant mbr == Mbr(FS_MAGIC, 0, s.metadataSectors, s.totalBlocks)
        invariant forall lba :: 1 <= lba <= i ==> lba < |sectors| && sectors[lba] == Blank(lba)
      {
        put := WriteSector(i + 1, Blank(i + 1));
        if !put { return false; }
      }
      return true;
    }

    /** mount, as written: it formats a disk without a record, but the fields come from what it read before.  They
        describe the disk exactly if it had been formatted, or the stale record happens to agree. */
    method Mount() returns (ok: bool, layout: Layout)
      requires Valid() && totalSectors > 0
      modifies this`mbr, this`sectors
      ensures Valid()
      ensures ok <==> InRange(0, 1) && (old(mbr).magic == FS_MAGIC
                                        || Divide(totalSectors).metadataSectors + SECTORS_PER_BLOCK + 1 < totalSectors)
      ensures layout == LayoutOf(old(mbr))
      ensures old(mbr).magic == FS_MAGIC ==> mbr == old(mbr) && sectors == old(sectors)
      ensures ok && old(mbr).magic != FS_MAGIC ==>
                mbr == FreshMbr(totalSectors) && Formatted(sectors, Divide(totalSectors))
      ensures ok ==> (layout == LayoutOf(mbr) <==>
                        old(mbr).magic == FS_MAGIC || LayoutOf(old(mbr)) == LayoutOf(FreshMbr(totalSectors)))
    {
      hide Divide, Formatted;
      var got, m := ReadMbr();
      layout := LayoutOf(m);
      if !got { return false, layout; }
      if m.magic != FS_MAGIC {
        var formatted := Format();
        if !formatted { return false, layout; }
      }
      return true, layout;
    }
  }

  /** The record that format writes. */
  function FreshMbr(totalSectors: u32): Mbr {
    Mbr(FS_MAGIC, 0, Divide(totalSectors).metadataSectors, Divide(totalSectors).totalBlocks)
  }

  /** A zeroed record agrees with no disk that has a block. */
  lemma ZeroedRecordIsStale(totalSectors: u32)
    requires Divide(totalSectors).totalBlocks > 0
    ensures LayoutOf(Mbr(0, 0, 0, 0)) != LayoutOf(FreshMbr(totalSectors))
    ensures Divide(8192).totalBlocks == 1022
  {
  }

  /** The sector addresses that mount derives from a boot record. */
  datatype Layout = Layout(metadataAddr: u32, metadataSectors: u32, dataAddr: u32, totalBlocks: u32)

  function LayoutOf(m: Mbr): Layout {
    Layout(Wrap(m.reserved + 1), m.metadataSectors, Wrap(m.reserved + m.metadataSectors + 1), m.totalBlocks)
  }

  /** The table starts behind the record and the reserved sectors, the blocks right behind the table, for any number of
      either; in 32 bits. */
  lemma LayoutFollowsRecord(m: Mbr)
    ensures var l := LayoutOf(m);
            && l.metadataSectors == m.metadataSectors && l.totalBlocks == m.totalBlocks
            && l.metadataAddr == (1 + m.reserved) % 0x1_0000_0000
            && l.dataAddr == (1 + m.reserved + m.metadataSectors) % 0x1_0000_0000
            && (1 + m.reserved + m.metadataSectors < 0x1_0000_0000 ==> l.dataAddr == l.metadataAddr + l.metadataSectors)
  {
  }

  // ----- the sectors as a volume -----

  function ByteOfWord(w: u32, i: nat): byte
    requires i < 4
  {
    if i == 0 then w % 0x100 else if i == 1 then w / 0x100 % 0x100 else if i == 2 then w / 0x1_0000 % 0x100
        else w / 0x100_0000 % 0x100
  }

  /** The lowest byte comes first. */
  lemma WordIsItsBytes(w: u32)
    ensures w == ByteOfWord(w, 0) + 0x100 * ByteOfWord(w, 1) + 0x1_0000 * ByteOfWord(w, 2)
                   + 0x100_0000 * ByteOfWord(w, 3)
  {
    var n: int := w;
    assert n / 0x1_0000 == n / 0x100 / 0x100 && n / 0x100_0000 == n / 0x1_0000 / 0x100;
  }

  /** The name in a name field. */
  function Name(bytes: seq<byte>): string {
    Strings.CString(seq(|bytes|, i requires 0 <= i < |bytes| => bytes[i] as char))
  }

  function TableOf(sectors: seq<Sector>, s: Sizes): (t: seq<u32>)
    requires 1 + s.metadataSectors <= |sectors|
    ensures |t| == ENTRIES_PER_SECTOR * s.metadataSectors
  {
    seq(ENTRIES_PER_SECTOR * s.metadataSectors, e requires 0 <= e < ENTRIES_PER_SECTOR * s.metadataSectors =>
      sectors[1 + e / ENTRIES_PER_SECTOR][e % ENTRIES_PER_SECTOR])
  }

  /** Byte p of block b. */
  function DiskByte(sectors: seq<Sector>, s: Sizes, b: nat, p: nat): byte
    requires p < BLOCK_SIZE && 1 + s.metadataSectors + SECTORS_PER_BLOCK * (b + 1) <= |sectors|
  {
    ByteOfWord(sectors[1 + s.metadataSectors + SECTORS_PER_BLOCK * b + p / 512][p % 512 / 4], p % 4)
  }

  function BlockOf(sectors: seq<Sector>, s: Sizes, b: nat): Block
    requires 1 + s.metadataSectors + SECTORS_PER_BLOCK * (b + 1) <= |sectors|
  {
    seq(BLOCK_SIZE, p requires 0 <= p < BLOCK_SIZE => DiskByte(sectors, s, b, p))
  }

  /** Slot k of the root directory: 24 name bytes, size and first block. */
  function DentryOf(sectors: seq<Sector>, s: Sizes, k: nat): Dentry
    requires k < SLOTS && 1 + s.metadataSectors + SECTORS_PER_BLOCK <= |sectors|
  {
    var words := sectors[1 + s.metadataSectors + k / 16];
    Dentry(Name(BlockOf(sectors, s, 0)[32 * k..32 * k + 24]), words[k % 16 * 8 + 6], words[k % 16 * 8 + 7])
  }

  function VolumeOf(sectors: seq<Sector>, s: Sizes): Vol
    requires 1 + s.metadataSectors + SECTORS_PER_BLOCK * s.totalBlocks <= |sectors| && s.totalBlocks > 0
  {
    Vol.Vol(TableOf(sectors, s), s.totalBlocks,
        seq(s.totalBlocks, b requires 0 <= b < s.totalBlocks => BlockOf(sectors, s, b)),
        seq(SLOTS, k requires 0 <= k < SLOTS => DentryOf(sectors, s, k)))
  }

  ghost predicate Formatted(sectors: seq<Sector>, s: Sizes) {
    forall lba :: 1 <= lba <= s.metadataSectors + SECTORS_PER_BLOCK ==>
      lba < |sectors| && sectors[lba] == Hdd.Blank(lba)
  }

  const EMPTY_SHAPE := Shape(seq(SLOTS, _ => []), map[])

  lemma BlankSlot(sectors: seq<Sector>, s: Sizes, k: nat)
    requires Formatted(sectors, s) && s.metadataSectors > 0 && k < SLOTS
    requires 1 + s.metadataSectors + SECTORS_PER_BLOCK <= |sectors|
    ensures DentryOf(sectors, s, k) == EMPTY_DENTRY
  {
    assert sectors[1 + s.metadataSectors + k / 16] == Hdd.Blank(1 + s.metadataSectors + k / 16);
    var p := 32 * k;
    assert p / 512 == k / 16;
    assert DiskByte(sectors, s, 0, p) == 0;
    assert BlockOf(sectors, s, 0)[p..p + 24][0] == BlockOf(sectors, s, 0)[p];
  }

  /** A fresh directory is all zeros, also behind the names: nothing stale is left for a first entry. */
  lemma BlankDirectory(sectors: seq<Sector>, s: Sizes, p: nat)
    requires Formatted(sectors, s) && s.metadataSectors > 0 && p < BLOCK_SIZE
    requires 1 + s.metadataSectors + SECTORS_PER_BLOCK <= |sectors|
    ensures DiskByte(sectors, s, 0, p) == 0
  {
    assert sectors[1 + s.metadataSectors + p / 512] == Hdd.Blank(1 + s.metadataSectors + p / 512);
  }

  lemma BlankTable(sectors: seq<Sector>, s: Sizes)
    requires Formatted(sectors, s) && 1 + s.metadataSectors <= |sectors|
    ensures forall e :: 0 <= e < ENTRIES_PER_SECTOR * s.metadataSectors ==>
              TableOf(sectors, s)[e] == if e == 0 then LAST_BLOCK else FREE_BLOCK
  {
    forall e | 0 <= e < ENTRIES_PER_SECTOR * s.metadataSectors
      ensures TableOf(sectors, s)[e] == if e == 0 then LAST_BLOCK else FREE_BLOCK
    {
      assert sectors[1 + e / ENTRIES_PER_SECTOR] == Hdd.Blank(1 + e / ENTRIES_PER_SECTOR);
    }
  }

  lemma BlankVolume(v: Vol)
    requires 0 < v.total == |v.blocks| && v.total <= |v.table| < LAST_BLOCK && |v.dir| == SLOTS
    requires forall e :: 0 <= e < |v.table| ==> v.table[e] == if 0 < e < v.total then FREE_BLOCK else LAST_BLOCK
    requires forall k: nat :: k < SLOTS ==> v.dir[k] == EMPTY_DENTRY
    ensures WellFormed(v, EMPTY_SHAPE) && Files(v, EMPTY_SHAPE) == map[]
  {
    assert Links(v.table, v.total, EMPTY_SHAPE);
    assert forall k: nat :: !Live(EMPTY_SHAPE, k);
    assert Names(v, EMPTY_SHAPE) == {};
  }

  lemma FreePaddingIsMalformed(v: Vol)
    requires v.total < |v.table| && v.table[v.total] == FREE_BLOCK
    ensures forall g :: !WellFormed(v, g)
  {
  }

  /** A formatted disk is a well-formed, empty volume exactly when its blocks fill whole table
      sectors.  Otherwise the entries past the last block are free, and the allocator will hand
      them out. */
  lemma FormattedIsWellFormed(ts: u32, sectors: seq<Sector>)
    requires ts == |sectors| > 0 && Divide(ts).totalBlocks > 0 && Formatted(sectors, Divide(ts))
    ensures var s := Divide(ts);
            && 1 + s.metadataSectors + SECTORS_PER_BLOCK * s.totalBlocks <= |sectors|
            && ((exists g :: WellFormed(VolumeOf(sectors, s), g)) <==> s.totalBlocks % ENTRIES_PER_SECTOR == 0)
            && (s.totalBlocks % ENTRIES_PER_SECTOR == 0 ==>
                  WellFormed(VolumeOf(sectors, s), EMPTY_SHAPE) && Files(VolumeOf(sectors, s), EMPTY_SHAPE) == map[])
  {
    hide WellFormed, Files, DentryOf, BlockOf, TableOf, Formatted, Divide;
    var s := Divide(ts);
    DivisionFits(ts);
    TableCoversBlocks(ts);
    var v := VolumeOf(sectors, s);
    BlankTable(sectors, s);
    forall k: nat | k < SLOTS ensures v.dir[k] == EMPTY_DENTRY { BlankSlot(sectors, s, k); }
    if s.totalBlocks % ENTRIES_PER_SECTOR == 0 {
      BlankVolume(v);
    } else {
      FreePaddingIsMalformed(v);
    }
  }

  lemma ScanStartsAtZero(total: nat)
    requires total > 0
    ensures FirstSector(0, total) == 0
  {
    if total == 1 { assert 1 % total == 0; } else { assert 1 % total == 1; }
  }

  lemma BlankAhead(v: Vol)
    requires 0 < v.total <= |v.table| < LAST_BLOCK
    requires forall e :: 0 <= e < |v.table| ==> v.table[e] == if e == 0 then LAST_BLOCK else FREE_BLOCK
    ensures |Ahead(v.table, v.total, 0)| == v.total - 1 && (Padded(v.table, v.total) <==> v.total < |v.table|)
    ensures forall e :: 0 <= e < |v.table| ==>
              Sealed(v.table, v.total)[e] == if 0 < e < v.total then FREE_BLOCK else LAST_BLOCK
  {
    ScanStartsAtZero(v.total);
    IntervalSize(v.total - 1, Ahead(v.table, v.total, 0));
    assert v.total < |v.table| ==> v.table[v.total] == FREE_BLOCK;
  }

  /** Either way the disk is an empty volume but for the entries past the last block, and the allocator, which starts
      at entry 1, has all blocks before it first. */
  lemma FormattedIsEmpty(ts: u32, sectors: seq<Sector>)
    requires ts == |sectors| > 0 && Divide(ts).totalBlocks > 0 && Formatted(sectors, Divide(ts))
    ensures var s := Divide(ts);
            && 1 + s.metadataSectors + SECTORS_PER_BLOCK * s.totalBlocks <= |sectors|
            && var v := VolumeOf(sectors, s);
               var w := v.(table := Sealed(v.table, v.total));
               && WellFormed(w, EMPTY_SHAPE) && Files(w, EMPTY_SHAPE) == map[]
               && 0 < v.total <= |v.table| == ENTRIES_PER_SECTOR * s.metadataSectors && v.total == s.totalBlocks
               && |Ahead(v.table, v.total, 0)| == v.total - 1
               && (Padded(v.table, v.total) <==> s.totalBlocks % ENTRIES_PER_SECTOR != 0)
  {
    hide WellFormed, Files, DentryOf, BlockOf, TableOf, Formatted, Divide, Sealed, Ahead, Padded;
    var s := Divide(ts);
    DivisionFits(ts);
    TableCoversBlocks(ts);
    var v := VolumeOf(sectors, s);
    BlankTable(sectors, s);
    forall k: nat | k < SLOTS ensures v.dir[k] == EMPTY_DENTRY { BlankSlot(sectors, s, k); }
    BlankAhead(v);
    BlankVolume(v.(table := Sealed(v.table, v.total)));
  }
}
