/** What writes to sectors do to the volume that the sectors hold: each changes one link, one block or one slot. */
module SectorVolume {
  import opened Types
  import opened Volume
  import opened Format

  /** The layout of s lies on the disk. */
  ghost predicate LaidOut(sectors: seq<Sector>, s: Sizes) {
    && 0 < s.totalBlocks <= ENTRIES_PER_SECTOR * s.metadataSectors
    && 1 + s.metadataSectors + SECTORS_PER_BLOCK * s.totalBlocks <= |sectors| <= 0xFFFF_FFFF
  }

  // ----- set_mte -----

  function PutWord(sectors: seq<Sector>, lba: nat, i: nat, w: u32): (r: seq<Sector>)
    requires lba < |sectors| && i < SECTOR_WORDS
    ensures |r| == |sectors|
  {
    sectors[lba := sectors[lba][i := w]]
  }

  lemma LinkWritten(sectors: seq<Sector>, s: Sizes, e: nat, data: u32)
    requires LaidOut(sectors, s) && e < ENTRIES_PER_SECTOR * s.metadataSectors
    ensures e / ENTRIES_PER_SECTOR < s.metadataSectors
    ensures var v := VolumeOf(sectors, s);
            VolumeOf(PutWord(sectors, 1 + e / ENTRIES_PER_SECTOR, e % ENTRIES_PER_SECTOR, data), s)
                == v.(table := v.table[e := data])
  {
    var r := PutWord(sectors, 1 + e / ENTRIES_PER_SECTOR, e % ENTRIES_PER_SECTOR, data);
    TableWritten(sectors, s, e, data);
    SameData(sectors, r, s);
  }

  lemma TableWritten(sectors: seq<Sector>, s: Sizes, e: nat, data: u32)
    requires LaidOut(sectors, s) && e < ENTRIES_PER_SECTOR * s.metadataSectors
    ensures TableOf(PutWord(sectors, 1 + e / ENTRIES_PER_SECTOR, e % ENTRIES_PER_SECTOR, data), s)
              == TableOf(sectors, s)[e := data]
  {
    var r := PutWord(sectors, 1 + e / ENTRIES_PER_SECTOR, e % ENTRIES_PER_SECTOR, data);
    forall f | 0 <= f < ENTRIES_PER_SECTOR * s.metadataSectors
      ensures TableOf(r, s)[f] == TableOf(sectors, s)[e := data][f]
    {
      assert f / ENTRIES_PER_SECTOR == e / ENTRIES_PER_SECTOR && f % ENTRIES_PER_SECTOR == e % ENTRIES_PER_SECTOR ==>
          f == e;
    }
  }

  /** Sectors that agree behind the table hold the same blocks and directory. */
  lemma SameData(a: seq<Sector>, b: seq<Sector>, s: Sizes)
    requires LaidOut(a, s) && |a| == |b| && forall i :: 1 + s.metadataSectors <= i < |a| ==> a[i] == b[i]
    ensures VolumeOf(b, s) == VolumeOf(a, s).(table := TableOf(b, s))
  {
    forall c | 0 <= c < s.totalBlocks ensures BlockOf(a, s, c) == BlockOf(b, s, c) { SameBlock(a, b, s, c); }
    SameDirectory(a, b, s);
  }

  lemma SameBlock(a: seq<Sector>, b: seq<Sector>, s: Sizes, c: nat)
    requires LaidOut(a, s) && |a| == |b| && c < s.totalBlocks
    requires forall q :: 0 <= q < SECTORS_PER_BLOCK ==> a[SectorOf(s, c, q)] == b[SectorOf(s, c, q)]
    ensures BlockOf(a, s, c) == BlockOf(b, s, c)
  {
    forall p | 0 <= p < BLOCK_SIZE ensures DiskByte(a, s, c, p) == DiskByte(b, s, c, p) {
      assert a[SectorOf(s, c, p / 512)] == b[SectorOf(s, c, p / 512)];
    }
  }

  /** Sector q of block c. */
  function SectorOf(s: Sizes, c: nat, q: nat): nat {
    1 + s.metadataSectors + SECTORS_PER_BLOCK * c + q
  }

  lemma SameDirectory(a: seq<Sector>, b: seq<Sector>, s: Sizes)
    requires LaidOut(a, s) && |a| == |b| && forall q :: 0 <= q < SECTORS_PER_BLOCK ==>
               a[SectorOf(s, 0, q)] == b[SectorOf(s, 0, q)]
    ensures forall k :: 0 <= k < SLOTS ==> DentryOf(a, s, k) == DentryOf(b, s, k)
  {
    SameBlock(a, b, s, 0);
    forall k | 0 <= k < SLOTS ensures DentryOf(a, s, k) == DentryOf(b, s, k) {
      assert a[SectorOf(s, 0, k / 16)] == b[SectorOf(s, 0, k / 16)];
    }
  }

  // ----- block_write -----

  /** The sectors with those of block b replaced. */
  function PutBlock(sectors: seq<Sector>, s: Sizes, b: nat, ws: seq<Sector>): (r: seq<Sector>)
    requires SectorOf(s, b, SECTORS_PER_BLOCK) <= |sectors| && |ws| == SECTORS_PER_BLOCK
    ensures |r| == |sectors|
  {
    seq(|sectors|, i requires 0 <= i < |sectors| =>
      if SectorOf(s, b, 0) <= i < SectorOf(s, b, SECTORS_PER_BLOCK) then ws[i - SectorOf(s, b, 0)] else sectors[i])
  }

  /** Which sectors PutBlock leaves alone. */
  lemma PutBlockAt(sectors: seq<Sector>, s: Sizes, b: nat, ws: seq<Sector>)
    requires LaidOut(sectors, s) && b < s.totalBlocks && |ws| == SECTORS_PER_BLOCK
    ensures forall i :: 1 <= i <= s.metadataSectors ==> PutBlock(sectors, s, b, ws)[i] == sectors[i]
    ensures forall c: nat, q: nat :: c < s.totalBlocks && q < SECTORS_PER_BLOCK ==>
              SectorOf(s, c, q) < |sectors|
              && PutBlock(sectors, s, b, ws)[SectorOf(s, c, q)] == if c == b then ws[q] else sectors[SectorOf(s, c, q)]
  {
    forall c: nat, q: nat | c < s.totalBlocks && q < SECTORS_PER_BLOCK
      ensures SectorOf(s, c, q) < |sectors|
      ensures PutBlock(sectors, s, b, ws)[SectorOf(s, c, q)] == if c == b then ws[q] else sectors[SectorOf(s, c, q)]
    {
      var i := SectorOf(s, c, q);
      assert SectorOf(s, b, 0) <= i < SectorOf(s, b, SECTORS_PER_BLOCK) <==> c == b;
      assert c == b ==> i - SectorOf(s, b, 0) == q;
      assert PutBlock(sectors, s, b, ws)[i] == if c == b then ws[i - SectorOf(s, b, 0)] else sectors[i];
    }
  }

  lemma TableKept(sectors: seq<Sector>, s: Sizes, b: nat, ws: seq<Sector>)
    requires LaidOut(sectors, s) && b < s.totalBlocks && |ws| == SECTORS_PER_BLOCK
    ensures TableOf(PutBlock(sectors, s, b, ws), s) == TableOf(sectors, s)
  {
    hide PutBlock;
    PutBlockAt(sectors, s, b, ws);
    var r := PutBlock(sectors, s, b, ws);
    forall e | 0 <= e < ENTRIES_PER_SECTOR * s.metadataSectors ensures TableOf(r, s)[e] == TableOf(sectors, s)[e] {
      assert r[1 + e / ENTRIES_PER_SECTOR] == sectors[1 + e / ENTRIES_PER_SECTOR];
    }
  }

  /** The bytes of eight sectors. */
  function BytesOf(ws: seq<Sector>): Block
    requires |ws| == SECTORS_PER_BLOCK
  {
    seq(BLOCK_SIZE, p requires 0 <= p < BLOCK_SIZE => ByteOfWord(ws[p / 512][p % 512 / 4], p % 4))
  }

  /** Writing a file's block changes that block and nothing else. */
  lemma BlockWritten(sectors: seq<Sector>, s: Sizes, b: nat, ws: seq<Sector>)
    requires LaidOut(sectors, s) && 0 < b < s.totalBlocks && |ws| == SECTORS_PER_BLOCK
    ensures var v := VolumeOf(sectors, s);
            VolumeOf(PutBlock(sectors, s, b, ws), s) == v.(blocks := v.blocks[b := BytesOf(ws)])
  {
    hide PutBlock, TableOf, BlockOf, DentryOf, BytesOf;
    var r := PutBlock(sectors, s, b, ws);
    TableKept(sectors, s, b, ws);
    BlocksWritten(sectors, s, b, ws);
    PutBlockAt(sectors, s, b, ws);
    SameDirectory(sectors, r, s);
  }

  lemma BlocksWritten(sectors: seq<Sector>, s: Sizes, b: nat, ws: seq<Sector>)
    requires LaidOut(sectors, s) && b < s.totalBlocks && |ws| == SECTORS_PER_BLOCK
    ensures forall c :: 0 <= c < s.totalBlocks ==>
              BlockOf(PutBlock(sectors, s, b, ws), s, c) == if c == b then BytesOf(ws) else BlockOf(sectors, s, c)
  {
    hide PutBlock, BlockOf;
    PutBlockAt(sectors, s, b, ws);
    var r := PutBlock(sectors, s, b, ws);
    forall c | 0 <= c < s.totalBlocks
      ensures BlockOf(r, s, c) == if c == b then BytesOf(ws) else BlockOf(sectors, s, c)
    {
      if c != b {
        SameBlock(sectors, r, s, c);
      } else {
        BlockIsWritten(r, s, b, ws);
      }
    }
  }

  lemma BlockIsWritten(r: seq<Sector>, s: Sizes, b: nat, ws: seq<Sector>)
    requires LaidOut(r, s) && b < s.totalBlocks && |ws| == SECTORS_PER_BLOCK
    requires forall q: nat :: q < SECTORS_PER_BLOCK ==> r[SectorOf(s, b, q)] == ws[q]
    ensures BlockOf(r, s, b) == BytesOf(ws)
  {
    forall p | 0 <= p < BLOCK_SIZE ensures DiskByte(r, s, b, p) == BytesOf(ws)[p] {
      assert r[SectorOf(s, b, p / 512)] == ws[p / 512];
    }
  }

  // ----- set_de -----

  /** The 32 bytes of a directory entry as words: six of the name, the size and the first block. */
  type Record = r: seq<u32> | |r| == 8 witness [0, 0, 0, 0, 0, 0, 0, 0]

  function Decoded(r: Record): Dentry {
    Dentry(Name(seq(24, j requires 0 <= j < 24 => ByteOfWord(r[j / 4], j % 4))), r[6], r[7])
  }

  /** The sectors of block 0 with entry k replaced, as set_de writes them back. */
  function PutRecord(ws: seq<Sector>, k: nat, r: Record): (ws': seq<Sector>)
    requires |ws| == SECTORS_PER_BLOCK && k < SLOTS
    ensures |ws'| == SECTORS_PER_BLOCK
  {
    var words := ws[k / 16];
    ws[k / 16 := seq(SECTOR_WORDS, i requires 0 <= i < SECTOR_WORDS =>
                   if k % 16 * 8 <= i < k % 16 * 8 + 8 then r[i - k % 16 * 8] else words[i])]
  }

  function DirectorySectors(sectors: seq<Sector>, s: Sizes): (ws: seq<Sector>)
    requires SectorOf(s, 0, SECTORS_PER_BLOCK) <= |sectors|
    ensures |ws| == SECTORS_PER_BLOCK
  {
    sectors[SectorOf(s, 0, 0)..SectorOf(s, 0, SECTORS_PER_BLOCK)]
  }

  /** The entry that k's words make. */
  lemma DentryFromWords(sectors: seq<Sector>, s: Sizes, k: nat, r: Record)
    requires LaidOut(sectors, s) && k < SLOTS
    requires sectors[SectorOf(s, 0, k / 16)][k % 16 * 8..k % 16 * 8 + 8] == r
    ensures DentryOf(sectors, s, k) == Decoded(r)
  {
    hide ByteOfWord, Name;
    var bytes := BlockOf(sectors, s, 0)[32 * k..32 * k + 24];
    var words := sectors[SectorOf(s, 0, k / 16)];
    assert forall i :: 0 <= i < 8 ==> r[i] == words[k % 16 * 8 + i];
    var meant := seq(24, j requires 0 <= j < 24 => ByteOfWord(r[j / 4], j % 4));
    forall j | 0 <= j < 24 ensures bytes[j] == meant[j] {
      var p := 32 * k + j;
      WordOfEntry(k, j);
      assert bytes[j] == DiskByte(sectors, s, 0, p);
      assert words[k % 16 * 8 + j / 4] == r[j / 4];
    }
    assert bytes == meant;
    assert r[6] == words[k % 16 * 8 + 6] && r[7] == words[k % 16 * 8 + 7];
  }

  lemma WordOfEntry(k: nat, j: nat)
    requires k < SLOTS && j < 24
    ensures (32 * k + j) / 512 == k / 16 && (32 * k + j) % 512 / 4 == k % 16 * 8 + j / 4 && (32 * k + j) % 4 == j % 4
  {
  }

  function RecordOf(sectors: seq<Sector>, s: Sizes, k: nat): Record
    requires SectorOf(s, 0, SECTORS_PER_BLOCK) <= |sectors| && k < SLOTS
  {
    sectors[SectorOf(s, 0, k / 16)][k % 16 * 8..k % 16 * 8 + 8]
  }

  /** Writing entry k of the directory block changes slot k and nothing else that a file system sees. */
  lemma SlotWritten(sectors: seq<Sector>, s: Sizes, k: nat, r: Record)
    requires LaidOut(sectors, s) && k < SLOTS
    ensures var v := VolumeOf(sectors, s);
            var w := VolumeOf(PutBlock(sectors, s, 0, PutRecord(DirectorySectors(sectors, s), k, r)), s);
            && w.table == v.table && w.total == v.total && w.dir == v.dir[k := Decoded(r)]
            && |w.blocks| == |v.blocks| && forall b :: 0 < b < |v.blocks| ==> w.blocks[b] == v.blocks[b]
  {
    hide PutBlock, TableOf, BlockOf, DentryOf, BytesOf, PutRecord, DirectorySectors, Decoded;
    var ws := PutRecord(DirectorySectors(sectors, s), k, r);
    var after := PutBlock(sectors, s, 0, ws);
    TableKept(sectors, s, 0, ws);
    BlocksWritten(sectors, s, 0, ws);
    forall a: nat | a < SLOTS ensures DentryOf(after, s, a) == if a == k then Decoded(r) else DentryOf(sectors, s, a) {
      EntryAfter(sectors, s, k, r, a);
    }
  }

  lemma EntryAfter(sectors: seq<Sector>, s: Sizes, k: nat, r: Record, a: nat)
    requires LaidOut(sectors, s) && k < SLOTS && a < SLOTS
    ensures DentryOf(PutBlock(sectors, s, 0, PutRecord(DirectorySectors(sectors, s), k, r)), s, a)
            == if a == k then Decoded(r) else DentryOf(sectors, s, a)
  {
    hide PutBlock, BlockOf, DentryOf, Decoded, PutRecord;
    var ws := PutRecord(DirectorySectors(sectors, s), k, r);
    var after := PutBlock(sectors, s, 0, ws);
    PutBlockAt(sectors, s, 0, ws);
    var record := if a == k then r else RecordOf(sectors, s, a);
    assert after[SectorOf(s, 0, a / 16)] == ws[a / 16];
    PutRecordAt(DirectorySectors(sectors, s), k, r, a);
    DentryFromWords(after, s, a, record);
    if a != k { DentryFromWords(sectors, s, a, record); }
  }

  lemma PutRecordAt(ws: seq<Sector>, k: nat, r: Record, a: nat)
    requires |ws| == SECTORS_PER_BLOCK && k < SLOTS && a < SLOTS
    ensures PutRecord(ws, k, r)[a / 16][a % 16 * 8..a % 16 * 8 + 8]
            == if a == k then r else ws[a / 16][a % 16 * 8..a % 16 * 8 + 8]
  {
    var after := PutRecord(ws, k, r)[a / 16][a % 16 * 8..a % 16 * 8 + 8];
    var meant := if a == k then r else ws[a / 16][a % 16 * 8..a % 16 * 8 + 8];
    forall i | 0 <= i < 8 ensures after[i] == meant[i] { OtherEntry(a, k, i); }
  }

  lemma OtherEntry(a: nat, k: nat, i: nat)
    requires a < SLOTS && k < SLOTS && i < 8
    ensures a % 16 * 8 + i < SECTOR_WORDS
    ensures a / 16 == k / 16 && k % 16 * 8 <= a % 16 * 8 + i < k % 16 * 8 + 8 ==> a == k
  {
  }

  // ----- the code on sectors -----

  /** set_mte on the disk, with the layout that mount computed. */
  method SetMteOnDisk(hdd: Hdd, l: Layout, e: u32, data: u32) returns (ok: bool)
    requires hdd.Valid() && LaidOut(hdd.sectors, Divide(hdd.totalSectors)) && l == LayoutOf(FreshMbr(hdd.totalSectors))
    requires e < ENTRIES_PER_SECTOR * l.metadataSectors
    modifies hdd`sectors
    ensures hdd.Valid() && (ok <==> hdd.InRange(l.metadataAddr + e / ENTRIES_PER_SECTOR, 1))
    ensures LaidOut(hdd.sectors, Divide(hdd.totalSectors))
    ensures var (v, w) :=
              (old(VolumeOf(hdd.sectors, Divide(hdd.totalSectors))), VolumeOf(hdd.sectors, Divide(hdd.totalSectors)));
            e < |v.table| && w == if ok then v.(table := v.table[e := data]) else v
  {
    hide Divide, VolumeOf;
    LinkWritten(hdd.sectors, Divide(hdd.totalSectors), e, data);
    var lba := l.metadataAddr + e / ENTRIES_PER_SECTOR;
    TableSize(hdd.sectors, Divide(hdd.totalSectors));
    if !hdd.InRange(lba, 1) { return false; }
    var buf := hdd.sectors[lba];
    ok := hdd.WriteSector(lba, buf[e % ENTRIES_PER_SECTOR := data]);
  }

  lemma TableSize(sectors: seq<Sector>, s: Sizes)
    requires LaidOut(sectors, s)
    ensures |VolumeOf(sectors, s).table| == ENTRIES_PER_SECTOR * s.metadataSectors
  {
  }

  /** write_hdd_sector for the eight sectors of a block. */
  method WriteBlockSectors(hdd: Hdd, lba: u32, ws: seq<Sector>, ghost s: Sizes, ghost b: nat) returns (ok: bool)
    requires hdd.Valid() && LaidOut(hdd.sectors, s) && b < s.totalBlocks && lba == SectorOf(s, b, 0)
    requires |ws| == SECTORS_PER_BLOCK
    modifies hdd`sectors
    ensures hdd.Valid() && (ok <==> hdd.InRange(lba, SECTORS_PER_BLOCK))
    ensures SectorOf(s, b, SECTORS_PER_BLOCK) <= |old(hdd.sectors)|
    ensures hdd.sectors == if ok then PutBlock(old(hdd.sectors), s, b, ws) else old(hdd.sectors)
  {
    assert b + 1 <= s.totalBlocks;
    if !hdd.InRange(lba, SECTORS_PER_BLOCK) { return false; }
    ghost var before := hdd.sectors;
    for i := 0 to SECTORS_PER_BLOCK
      invariant |hdd.sectors| == |before|
      invariant forall k :: 0 <= k < |before| ==>
                  hdd.sectors[k] == if lba <= k < lba + i then ws[k - lba] else before[k]
    {
      hdd.sectors := hdd.sectors[lba + i := ws[i]];
    }
    ok := true;
  }

  /** block_write on the disk: that block changes, and for block 0, which holds the directory, see SetDeOnDisk. */
  method BlockWriteOnDisk(hdd: Hdd, l: Layout, b: u32, ws: seq<Sector>) returns (ok: bool)
    requires hdd.Valid() && LaidOut(hdd.sectors, Divide(hdd.totalSectors)) && l == LayoutOf(FreshMbr(hdd.totalSectors))
    requires b < l.totalBlocks && |ws| == SECTORS_PER_BLOCK
    modifies hdd`sectors
    ensures hdd.Valid() && LaidOut(hdd.sectors, Divide(hdd.totalSectors))
    ensures ok <==> hdd.InRange(BlockSector(l.dataAddr, b), SECTORS_PER_BLOCK)
    ensures var s := Divide(hdd.totalSectors);
            && SectorOf(s, b, SECTORS_PER_BLOCK) <= |old(hdd.sectors)|
            && hdd.sectors == if ok then PutBlock(old(hdd.sectors), s, b, ws) else old(hdd.sectors)
    ensures var (v, w) :=
              (old(VolumeOf(hdd.sectors, Divide(hdd.totalSectors))), VolumeOf(hdd.sectors, Divide(hdd.totalSectors)));
            b > 0 && b < |v.blocks| ==> w == if ok then v.(blocks := v.blocks[b := BytesOf(ws)]) else v
  {
    hide Divide, VolumeOf, PutBlock;
    ghost var s := Divide(hdd.totalSectors);
    BlockPlace(s, |hdd.sectors|, b);
    if b > 0 { BlockWritten(hdd.sectors, s, b, ws); }
    ok := WriteBlockSectors(hdd, BlockSector(l.dataAddr, b), ws, s, b);
  }

  lemma BlockPlace(s: Sizes, n: nat, b: u32)
    requires 1 + s.metadataSectors + SECTORS_PER_BLOCK * s.totalBlocks <= n <= 0xFFFF_FFFF && b < s.totalBlocks
    ensures 1 + s.metadataSectors <= 0xFFFF_FFFF && BlockSector(Wrap(s.metadataSectors + 1), b) == SectorOf(s, b, 0)
  {
    assert b + 1 <= s.totalBlocks;
  }

  /** set_de on the disk: it reads the directory block, replaces the entry's words and writes the block back. */
  method SetDeOnDisk(hdd: Hdd, l: Layout, k: nat, r: Record) returns (ok: bool)
    requires hdd.Valid() && LaidOut(hdd.sectors, Divide(hdd.totalSectors)) && l == LayoutOf(FreshMbr(hdd.totalSectors))
    requires k < SLOTS
    modifies hdd`sectors
    ensures hdd.Valid() && LaidOut(hdd.sectors, Divide(hdd.totalSectors))
    ensures ok <==> hdd.InRange(l.dataAddr, SECTORS_PER_BLOCK)
    ensures var (v, w) :=
              (old(VolumeOf(hdd.sectors, Divide(hdd.totalSectors))), VolumeOf(hdd.sectors, Divide(hdd.totalSectors)));
            && |v.dir| == SLOTS && w.table == v.table && w.total == v.total
                && w.dir == (if ok then v.dir[k := Decoded(r)] else v.dir)
            && |w.blocks| == |v.blocks| && forall b :: 0 < b < |v.blocks| ==> w.blocks[b] == v.blocks[b]
  {
    hide Divide, PutBlock, PutRecord, Decoded, TableOf, BlockOf, DentryOf;
    ghost var s := Divide(hdd.totalSectors);
    BlockPlace(s, |hdd.sectors|, 0);
    SlotWritten(hdd.sectors, s, k, r);
    var base := BlockSector(l.dataAddr, 0);
    var buf := hdd.sectors[base..base + SECTORS_PER_BLOCK];
    ok := WriteBlockSectors(hdd, base, PutRecord(buf, k, r), s, 0);
  }
}
