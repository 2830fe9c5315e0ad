/** Concrete inputs on which the code does not do what it means to, one for each condition that is proved elsewhere. */
module FailingInputs {
  import opened Types
  import opened Volume
  import opened VolumeFacts
  import opened FileSystem
  import opened WriteProgress
  import opened WriteResult
  import opened ExtendingSeek
  import opened Format
  import opened MkFileSys
  import SchedulerSpec
  import Bitmap
  import Kmem
  import Numerals
  import Strings

  /** A disk with one file, of at most one block: "a", in block 1. */
  function OneFile(total: nat, size: u32): Vol
    requires 1 < total < LAST_BLOCK
  {
    Vol.Vol(seq(total, e => if e < 2 then LAST_BLOCK else FREE_BLOCK), total, seq(total, _ => ZeroBlock()),
            seq(SLOTS, k => if k == 0 then Dentry("a", size, 1) else EMPTY_DENTRY))
  }

  function OneChain(): Shape {
    Shape(seq(SLOTS, k => if k == 0 then [1] else []), map[1 := Pos(0, 0)])
  }

  lemma OneFileIsWellFormed(total: nat, size: u32)
    requires 1 < total < LAST_BLOCK && size <= BLOCK_SIZE
    ensures WellFormed(OneFile(total, size), OneChain()) && Live(OneChain(), 0)
    ensures |FreeSet(OneFile(total, size).table, total)| == total - 2
    ensures Reach(OneFile(total, size), OneChain(), 0) == total - 1
  {
    var v, g := OneFile(total, size), OneChain();
    forall a: nat, i: nat | a < SLOTS && i < |g.chains[a]| ensures InPlace(v.table, v.total, g, a, i) {
      assert a == 0 && i == 0;
    }
    assert Links(v.table, v.total, g);
    forall a: nat | a < SLOTS ensures SlotOk(v.dir, g, a) && Sized(v.dir, g, a) {}
    IntervalSize(total - 1, FreeSet(v.table, total) + {1});
  }

  /** Writing 4097 bytes to the empty file: as written the second block is lost. */
  lemma GrowingWriteBreaks()
    ensures !KeepsShape(FromCurrent, OneFile(128, 0), OneChain(), 0, 0, 4097)
    ensures KeepsShape(FromPrevious, OneFile(128, 0), OneChain(), 0, 0, 4097)
    ensures KeepsShape(FromCurrent, OneFile(128, 0), OneChain(), 0, 0, 4096)
  {
    OneFileIsWellFormed(128, 0);
  }

  /** Writing nothing after seeking 100 bytes behind a full block: the size is recorded all the same. */
  lemma EmptyWriteBreaks()
    ensures !KeepsShape(FromPrevious, OneFile(128, 4096), OneChain(), 0, 4196, 0)
    ensures KeepsShape(FromPrevious, OneFile(128, 4096), OneChain(), 0, 4196, 1)
  {
    OneFileIsWellFormed(128, 4096);
  }

  /** Seeking in the empty file to 8192: as written the second block of zeros is lost, although that is a
      block's end. */
  lemma ExtendingSeekBreaks()
    ensures !SeekKeepsHandle(FromCurrent, OneFile(128, 0), OneChain(), 0, 8192)
    ensures SeekKeepsHandle(FromPrevious, OneFile(128, 0), OneChain(), 0, 8192)
  {
    OneFileIsWellFormed(128, 0);
  }

  /** Seeking to 5000: the handle stays at 8192, however the file grows. */
  lemma UnalignedSeekBreaks(growth: Growth)
    ensures !SeekKeepsHandle(growth, OneFile(128, 0), OneChain(), 0, 5000)
  {
    OneFileIsWellFormed(128, 0);
  }

  /** Seeking in the empty file to the largest int on a disk of 2 GiB: the fill succeeds, the seek reports an error and
      leaves the position at the end, so that the handle is right although the target is no block's end.  Seeking to
      2 GiB is refused as well, although that is one; and one block less is not. */
  lemma HugeSeekIsRefused()
    ensures var (v, g) := (OneFile(0x8_0080, 0), OneChain());
            && Refused(v, g, 0, 0x7FFF_FFFF) && SeekKeepsHandle(FromPrevious, v, g, 0, 0x7FFF_FFFF)
            && Refused(v, g, 0, 0x8000_0000) && 0x8000_0000 % BLOCK_SIZE == 0
            && !Refused(v, g, 0, 0x7FFF_F000) && SeekKeepsHandle(FromPrevious, v, g, 0, 0x7FFF_F000)
            && !Refused(v, g, 0, 0x7FFF_EFFF) && !SeekKeepsHandle(FromPrevious, v, g, 0, 0x7FFF_EFFF)
  {
    OneFileIsWellFormed(0x8_0080, 0);
  }

  /** A disk of 10 sectors holds one block, whose last sector the driver does not reach. */
  lemma LastBlockIsLost()
    ensures Divide(10) == Sizes(1, 1) && !(Wrap(BlockSector(2, 0) + SECTORS_PER_BLOCK) < 10)
  {
  }

  /** A formatted disk of 100 sectors has 12 blocks and 116 free entries that belong to none. */
  lemma PaddingIsFree(sectors: seq<Sector>)
    requires |sectors| == 100 && Formatted(sectors, Divide(100))
    ensures Divide(100) == Sizes(1, 12) && 1 + 1 + SECTORS_PER_BLOCK * 12 <= |sectors|
    ensures forall g :: !WellFormed(VolumeOf(sectors, Divide(100)), g)
  {
    FormattedIsWellFormed(100, sectors);
  }

  /** Mounting a zeroed disk of 8192 sectors: it succeeds with a layout that is not the disk's. */
  method StaleMount(hdd: Hdd) returns (ok: bool, layout: Layout)
    requires hdd.Valid() && hdd.totalSectors == 8192 && hdd.mbr == Mbr(0, 0, 0, 0)
    modifies hdd`mbr, hdd`sectors
    ensures ok && layout.totalBlocks == 0 && LayoutOf(hdd.mbr).totalBlocks == 1022 && layout != LayoutOf(hdd.mbr)
  {
    ZeroedRecordIsStale(8192);
    ok, layout := hdd.Mount();
  }

  /** Once its 11 blocks are used, the allocator hands out one of these. */
  method PaddingIsGivenOut(fs: FileSys) returns (r: u32)
    requires fs.mounted && fs.Fits() && fs.total == 12 && fs.metadataSectors == 1
    requires forall e :: 0 <= e < |fs.table| ==> (fs.table[e] == FREE_BLOCK <==> e >= 12)
    modifies fs`table, fs`lastAllocated, fs`room
    ensures 12 <= r < 128 == |fs.table| && fs.table[r] == LAST_BLOCK
  {
    assert fs.table[12] == FREE_BLOCK;
    r := fs.AllocBlock(LAST_BLOCK);
  }

  lemma AllFree(v: Vol)
    requires WellFormed(v, EMPTY_SHAPE) && v.total > REACHABLE
    ensures v.total <= |v.table| && |FreeSet(v.table, v.total)| == v.total - 1
    ensures |LowFree(v.table, v.total)| == REACHABLE - 1
    ensures Files(v, EMPTY_SHAPE) == map[] && !Live(EMPTY_SHAPE, 0)
  {
    IntervalSize(v.total - 1, FreeSet(v.table, v.total));
    IntervalSize(REACHABLE - 1, LowFree(v.table, v.total));
    assert Names(v, EMPTY_SHAPE) == {};
  }

  /** A file of one byte below 4 GiB on an empty image of a little more: the last piece is written over the directory's
      block, where the directory goes later, and is lost. */
  method LastPieceIsLost(img: Image)
    requires img.Valid() && img.total == 0x10_0080 && img.shape == EMPTY_SHAPE
    requires forall e :: 0 <= e < |img.blocks| ==> img.blocks[e] == ZeroBlock()
    modifies img`blocks, img`shape, img.meta, img.dentries
    ensures img.Valid() && "a" in Files(img.Disk(), img.shape)
    ensures Files(img.Disk(), img.shape)["a"] != seq(0xFFFF_FFFF, _ => 1)
  {
    hide WellFormed, Files, LowFree, Entered;
    ghost var v, g := img.Disk(), img.shape;
    AllFree(v);
    var file := SourceFile("a", seq(0xFFFF_FFFF, _ => 1));
    assert BaseName(file.path) == "a";
    ghost var k := img.AddFile(file);
    ghost var w, h := img.Disk(), img.shape;
    CopiedFits(v, g, k, file, w, h);
    ChainIsLow(v, g, k, file, w, h);
    ghost var i :| 0 <= i < |h.chains[k]| && h.chains[k][i] >= REACHABLE;
    PieceIsLost(v, g, k, file, w, h, BLOCK_SIZE * i);
    EnteredName(v, g, k, file, w, h);
    FilesAt(w, h, k);
  }

  /** The boot task alone: scheduling puts it on the ready list while it runs. */
  lemma LoneTaskIsListed()
    ensures var s := SchedulerSpec.Sched(0, [], [], {0}, {});
            SchedulerSpec.Partition(s) && SchedulerSpec.Schedule(s).ready == [0]
                && !SchedulerSpec.Partition(SchedulerSpec.Schedule(s))
  {
    SchedulerSpec.BootPartition();
    SchedulerSpec.ScheduleKeepsPartition(SchedulerSpec.Sched(0, [], [], {0}, {}));
  }

  /** The number 2147483600 prints, but parsing it overflows. */
  lemma ParsingOverflows()
    ensures Numerals.Parsed(Numerals.Numeral(2147483600, false)) == None
  {
    assert Numerals.Numeral(2147483600, false) + [] == Numerals.Numeral(2147483600, false);
    Numerals.StoiUndoesItos(2147483600, false, []);
  }

  /** "-5 x" parses to 5. */
  lemma SignIsLost()
    ensures Numerals.Parsed(Numerals.Numeral(-5, false) + [' ', 'x']) == Some(5)
    ensures Numerals.Parsed(Numerals.Numeral(-5, false)) == Some(-5)
  {
    Numerals.StoiUndoesItos(-5, false, [' ', 'x']);
    assert Numerals.Numeral(-5, false) + [] == Numerals.Numeral(-5, false);
    Numerals.StoiUndoesItos(-5, false, []);
  }

  /** Copying "ab" over "wxyz" makes it "abyz". */
  lemma CopyRunsOn()
    ensures Strings.CString(['a', 'b'] + ['y', 'z', Strings.NUL]) == ['a', 'b', 'y', 'z']
    ensures ['a', 'b', 'y', 'z'] != ['a', 'b']
  {
    Strings.CStringOf(['a', 'b'], ['y', 'z', Strings.NUL]);
    Strings.CStringOf(['y', 'z'], [Strings.NUL]);
    assert ['y', 'z'] + [Strings.NUL] == ['y', 'z', Strings.NUL];
    assert ['y', 'z'] + [] == ['y', 'z'];
  }

  /** From an empty pool of four shards the written test gives out shard 0 twice. */
  lemma ShardIsGivenTwice()
    ensures var p := Kmem.Pool([false, false, false, false], []);
            var q := Kmem.Alloc(Bitmap.AsWritten, Kmem.Alloc(Bitmap.AsWritten, p, 4, 1), 4, 1);
            Kmem.Consistent(p, 4) && q.live == [Kmem.Block(0, 1), Kmem.Block(0, 1)] && !Kmem.Consistent(q, 4)
  {
    Kmem.WrittenTestGivesTwice(Kmem.Pool([false, false, false, false], []), 4, 1);
  }
}
