/** From a disk without a record to a run of the file system: format, mount and everything that follows. */
module FromBlankDisk {
  import opened Types
  import opened Volume
  import opened VolumeFacts
  import opened FileSystem
  import opened FileSystemRuns
  import opened WriteProgress
  import opened Format

  lemma {:induction false} NoBlocksInUse(chains: seq<seq<u32>>)
    requires forall a :: 0 <= a < |chains| ==> chains[a] == []
    ensures TotalLength(chains) == 0
  {
    if chains != [] { NoBlocksInUse(chains[..|chains| - 1]); }
  }

  /** An empty volume shows no files, and all blocks but the directory's are free. */
  lemma EmptyView(v: Vol)
    requires WellFormed(v, EMPTY_SHAPE) && Files(v, EMPTY_SHAPE) == map[]
    ensures v.total > 0 && View(v, EMPTY_SHAPE) == Abstract(map[], v.total - 1)
  {
    SpaceIsConserved(v.table, v.total, EMPTY_SHAPE);
    NoBlocksInUse(EMPTY_SHAPE.chains);
  }

  /** The first mount formats the disk but works with the stale record; after the second one every run of the file
      system is the run on the empty store.  Unless the blocks fill whole table sectors, that is so as long as the run
      claims no more blocks than the disk has for files. */
  method FormatMountRun(hdd: Hdd, ops: seq<Op>, growth: Growth)
    returns (first: bool, stale: Layout, second: bool, layout: Layout, fs: FileSys)
    requires hdd.Valid() && hdd.mbr.magic != FS_MAGIC && Divide(hdd.totalSectors).totalBlocks > 0
    requires Divide(hdd.totalSectors).metadataSectors + SECTORS_PER_BLOCK + 1 < hdd.totalSectors
    requires AllSensible(growth, Abstract(map[], Divide(hdd.totalSectors).totalBlocks - 1), ops)
    requires var blocks := Divide(hdd.totalSectors).totalBlocks;
             blocks % ENTRIES_PER_SECTOR == 0 || AllClaims(Abstract(map[], blocks - 1), ops) <= blocks - 1
    modifies hdd`mbr, hdd`sectors
    ensures first && stale == LayoutOf(old(hdd.mbr)) && second && layout == LayoutOf(FreshMbr(hdd.totalSectors))
    ensures hdd.Valid() && Formatted(hdd.sectors, Divide(hdd.totalSectors))
    ensures fs.Valid() && View(fs.Disk(), fs.shape) == Run(Abstract(map[], layout.totalBlocks - 1), ops)
  {
    hide Divide, VolumeOf, WellFormed, Files, View, Run, AllSensible, AllClaims, Sealed, Ahead, Padded;
    ghost var s := Divide(hdd.totalSectors);
    first, stale := hdd.Mount();
    second, layout := hdd.Mount();
    FormattedIsEmpty(hdd.totalSectors, hdd.sectors);
    var v := VolumeOf(hdd.sectors, Divide(hdd.totalSectors));
    EmptyView(v.(table := Sealed(v.table, v.total)));
    fs := new FileSys.Mount(layout.metadataSectors, v.table, v.total, v.blocks, v.dir, EMPTY_SHAPE);
    RunAll(fs, ops, growth);
  }
}
