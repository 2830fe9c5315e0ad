/** filesys/file.c: file_seek past the end of a file, which fills the file with zeros first. */
module ExtendingSeek {
  import opened Types
  import opened Volume
  import opened VolumeFacts
  import opened VolumeSteps
  import opened FileSystem
  import opened WriteProgress
  import opened FileOps
  import opened WriteResult

  /** x, rounded up to whole blocks. */
  function WholeBlocks(x: nat): (r: nat)
    ensures x <= r < x + BLOCK_SIZE && r % BLOCK_SIZE == 0
  {
    (x + BLOCK_SIZE - 1) / BLOCK_SIZE * BLOCK_SIZE
  }

  /** What a 32-bit unsigned count is as a C int. */
  function AsInt(x: u32): int {
    if x < 0x8000_0000 then x else x - 0x1_0000_0000
  }

  function Zeros(n: nat): (r: seq<byte>)
    ensures |r| == n
  {
    seq(n, _ => 0)
  }

  lemma ZerosAreZero(n: nat)
    ensures forall i :: 0 <= i < n ==> Zeros(n)[i] == 0
  {
  }

  /** How many blocks a fill up to the end of `target`'s block claims at most, for a file of m blocks. */
  function FillClaims(m: nat, size: nat, target: nat): nat
    requires size <= target
  {
    Missing(m, size, WholeBlocks(target) - size)
  }

  /** A chunk of the fill needs no more than is left of that. */
  lemma ChunkClaims(m0: nat, m: nat, size: nat, more: nat, done: nat, chunk: nat)
    requires done + chunk <= more && chunk > 0 && m == Max(m0, if done == 0 then 0 else BlocksFor(size + done))
    ensures Missing(m, size + done, chunk) + m <= m0 + Missing(m0, size, more)
  {
  }

  /** The blocks that the file in slot k has or could get. */
  ghost function Reach(v: Vol, g: Shape, k: nat): nat
    requires v.total <= |v.table| && k < |g.chains|
  {
    |g.chains[k]| + |FreeSet(v.table, v.total)|
  }

  /** The loop of file_fill_zero. */
  method FillLoop(fs: FileSys, f: File, total: nat, growth: Growth, ghost j: Job)
    returns (n: nat, full: bool, ghost m: nat, ghost s: Stand)
    requires f.Open(fs) && f.offset == f.size && WholeBlocks(f.size + total) <= 0xFFFF_FFFF && total > 0
    requires fs.Roomy(FillClaims(|f.Chain(fs)|, f.size, f.size + total))
    requires j == Job(fs.Disk(), fs.shape, f.slot, f.size)
    modifies fs, f
    ensures fs.mounted && fs.Laid() && |fs.dir| == SLOTS && f.slot == j.k && f.kind == TYPE_FILE
    ensures f.first == old(f.first)
    ensures Stands(fs, f, s) && Underway(growth, j, Zeros(m), s)
    ensures f.offset == f.size == j.offset + m == fs.dir[f.slot].size <= WholeBlocks(j.offset + total)
    ensures fs.room + |s.c| == old(fs.room) + old(|f.Chain(fs)|)
    ensures !full ==> n == m && f.size == WholeBlocks(j.offset + total)
    ensures full ==> NoFreeEntry(fs.Table()) && f.offset / BLOCK_SIZE == |s.c| && f.size < WholeBlocks(j.offset + total)
  {
    hide WellFormed, Placed, Underway, Zeros, WholeBlocks, Missing, Sealed, Ahead, Padded, BlocksFor, Links, Directory;
    SlotsMatch(fs.Disk(), fs.shape);
    ghost var size, target, own := f.size, f.size + total, |f.Chain(fs)|;
    UnderwayStart(growth, j, f.current, f.previous);
    s, m := Stand(j.v, j.g, j.g.chains[j.k], f.current, f.previous, false), 0;
    assert Zeros(0) == [];
    n, full := 0, false;
    while n < total && !full
      invariant fs.mounted && fs.Laid() && |fs.dir| == SLOTS && f.slot == j.k && f.kind == TYPE_FILE
      invariant f.first == old(f.first)
      invariant Stands(fs, f, s) && Underway(growth, j, Zeros(m), s)
      invariant f.offset == f.size == size + m == fs.dir[f.slot].size
      invariant fs.room + |s.c| == old(fs.room) + own
      invariant size + m <= WholeBlocks(target)
      invariant !full ==> n == m && (n < total || size + m == WholeBlocks(target))
      invariant full ==> NoFreeEntry(fs.Table()) && f.offset / BLOCK_SIZE == |s.c| && size + m < WholeBlocks(target)
      decreases total - n, !full
    {
      NextBoundary(size + m, target);
      var chunk := BLOCK_SIZE - f.offset % BLOCK_SIZE;
      UnderwayLength(growth, j, Zeros(m), s);
      ChunkClaims(own, |s.c|, size, WholeBlocks(target) - size, m, chunk);
      var done;
      done, s := WriteOn(fs, f, Zeros(chunk), growth, j, Zeros(m), s);
      ZerosAdd(m, chunk, done);
      m := m + done;
      if done != chunk {
        full := true;
      } else {
        n := n + chunk;
      }
    }
  }

  /** file_fill_zero, called at the end of the file: it fills whole blocks until `total` bytes are written or the
      disk is full.  Its writes together are one write of zeros up to a block's end.  Its result is a signed int: a
      fill of 2 GiB or more succeeds with a negative one. */
  method FillZero(fs: FileSys, f: File, total: nat, growth: Growth) returns (r: int)
    requires f.Open(fs) && f.offset == f.size && total > 0 && WholeBlocks(f.size + total) <= 0xFFFF_FFFF
    requires fs.Roomy(FillClaims(|f.Chain(fs)|, f.size, f.size + total))
    modifies fs, f
    ensures fs.room >= old(fs.room - FillClaims(|f.Chain(fs)|, f.size, f.size + total))
    ensures f.slot == old(f.slot) && f.kind == TYPE_FILE && f.offset == f.size >= old(f.size) && fs.mounted && fs.Laid()
    ensures var more := WholeBlocks(old(f.size) + total) - old(f.size);
            && WriteOutcome(growth, old(fs.Disk()), old(fs.shape), f.slot, old(f.size), Zeros(more),
                f.size - old(f.size),
                            fs.Disk(), fs.shape)
            && (f.Open(fs) <==> KeepsShape(growth, old(fs.Disk()), old(fs.shape), f.slot, old(f.size), more))
            && r == (if f.size - old(f.size) < more then 0 else AsInt(more))
  {
    hide WellFormed, Placed, WriteOutcome, KeepsShape, Underway, Zeros, WholeBlocks, Missing, Sealed, BlocksFor;
    SlotsMatch(fs.Disk(), fs.shape);
    ghost var j, more := Job(fs.Disk(), fs.shape, f.slot, f.size), WholeBlocks(f.size + total) - f.size;
    ghost var m, s;
    var n, full;
    n, full, m, s := FillLoop(fs, f, total, growth, j);
    ZerosAdd(0, more, m);
    UnderwayLength(growth, j, Zeros(m), s);
    MissingAtMost(|j.g.chains[j.k]|, j.offset, m, more);
    WriteEnds(growth, j, Zeros(more), m, s);
    r := if full then 0 else AsInt(n);
  }

  lemma ZerosAdd(m: nat, n: nat, k: nat)
    requires k <= n
    ensures Zeros(m) + Zeros(n)[..k] == Zeros(m + k)
    ensures Zeros(n)[..k] == Zeros(k)
  {
  }

  lemma NextBoundary(at: nat, target: nat)
    requires at < target
    ensures var next := at + (BLOCK_SIZE - at % BLOCK_SIZE);
            next <= WholeBlocks(target) && (next >= target ==> next == WholeBlocks(target))
  {
  }

  /** The fill succeeds, but the seek takes its count for an error and leaves the position at the end. */
  ghost predicate Refused(v: Vol, g: Shape, k: nat, target: nat)
    requires v.total <= |v.table| && k < |g.chains| && k < |v.dir|
  {
    WholeBlocks(target) - v.dir[k].size >= 0x8000_0000 && WholeBlocks(target) <= BLOCK_SIZE * Reach(v, g, k)
  }

  /** An extending seek leaves a handle that is right: the fill keeps the shape, and its end is the target, or the
      position stays at the fill's end, or the target is in the first block that the disk had no room for. */
  ghost predicate SeekKeepsHandle(growth: Growth, v: Vol, g: Shape, k: nat, target: nat)
    requires v.total <= |v.table| && k < |g.chains| && k < |v.dir|
  {
    && (growth.FromPrevious? || WholeBlocks(target) <= BLOCK_SIZE * |g.chains[k]| || FreeSet(v.table, v.total) == {})
    && if WholeBlocks(target) <= BLOCK_SIZE * Reach(v, g, k) then target % BLOCK_SIZE == 0 || Refused(v, g, k, target)
       else target / BLOCK_SIZE == Reach(v, g, k)
  }

  /** Where an extending seek leaves the position: the handle points at the end of the grown file, but its
      offset says `target`. */
  lemma TargetPlaced(w: Vol, h: Shape, k: nat, current: u32, previous: u32, target: nat, blocks: nat)
    requires WellFormed(w, h) && k < SLOTS && Live(h, k) && |w.dir| == SLOTS
    requires w.dir[k].size == Min(WholeBlocks(target), BLOCK_SIZE * blocks) > 0
    requires Placed(h.chains[k], w.dir[k].size, current, previous)
    ensures var right := if WholeBlocks(target) <= BLOCK_SIZE * blocks then target % BLOCK_SIZE == 0
              else target / BLOCK_SIZE == blocks;
            && (Placed(h.chains[k], target, current, previous) <==> right)
            && (right ==> target / BLOCK_SIZE <= w.dir[k].size / BLOCK_SIZE)
  {
    var b := w.dir[k].size / BLOCK_SIZE;
    SizeInChain(w, h, k);
    ChainFacts(w.table, w.total, h, k);
    assert w.dir[k].size == BLOCK_SIZE * b && |h.chains[k]| == b;
    assert target / BLOCK_SIZE < b ==> h.chains[k][target / BLOCK_SIZE] != LAST_BLOCK;
  }

  /** The fill in numbers. */
  lemma FillReaches(growth: Growth, v: Vol, g: Shape, k: nat, target: nat)
    requires WellFormed(v, g) && k < SLOTS && Live(g, k)
    ensures |v.dir| == |g.chains| == SLOTS && v.total <= |v.table| && Reach(v, g, k) > 0
    ensures v.dir[k].size < target ==>
              var more := WholeBlocks(target) - v.dir[k].size;
              && v.dir[k].size + Taken(v, g, k, v.dir[k].size, more)
                  == Min(WholeBlocks(target), BLOCK_SIZE * Reach(v, g, k))
              && (KeepsShape(growth, v, g, k, v.dir[k].size, more) <==>
                    growth.FromPrevious? || WholeBlocks(target) <= BLOCK_SIZE * |g.chains[k]|
                        || FreeSet(v.table, v.total) == {})
  {
    SizeInChain(v, g, k);
    CoreFacts(v, g);
    LinksBound(v.table, v.total, g);
  }

  /** The branch of file_seek behind the last block.  It goes to the end of the file and grows it by zeros to whole
      blocks, so that its size is not the target either; then it sets the offset, unless the fill looks like an
      error. */
  method SeekPastEnd(fs: FileSys, f: File, offset: u32, growth: Growth) returns (r: int)
    requires f.Open(fs) && offset / BLOCK_SIZE > f.size / BLOCK_SIZE && WholeBlocks(offset) <= 0xFFFF_FFFF
    requires fs.Roomy(FillClaims(|f.Chain(fs)|, f.size, offset))
    modifies fs, f
    ensures fs.room >= old(fs.room - FillClaims(|f.Chain(fs)|, f.size, offset))
    ensures f.slot == old(f.slot) && f.kind == TYPE_FILE
    ensures r == if old(Refused(fs.Disk(), fs.shape, f.slot, offset)) then -1 else 0
    ensures f.offset == if r == -1 then f.size else offset
    ensures f.size == Min(WholeBlocks(offset), BLOCK_SIZE * old(Reach(fs.Disk(), fs.shape, f.slot))) >= old(f.size)
    ensures WriteOutcome(growth, old(fs.Disk()), old(fs.shape), f.slot, old(f.size),
              Zeros(WholeBlocks(offset) - old(f.size)),
                         f.size - old(f.size), fs.Disk(), fs.shape)
    ensures f.Open(fs) <==> SeekKeepsHandle(growth, old(fs.Disk()), old(fs.shape), f.slot, offset)
  {
    hide WellFormed, Placed, WriteOutcome, KeepsShape, Zeros, Reach, WholeBlocks, Taken, FillClaims, Sealed;
    ghost var v, g, k := fs.Disk(), fs.shape, f.slot;
    FillReaches(growth, v, g, k, offset);
    Reposition(fs, f, f.size);
    var filled := FillZero(fs, f, offset - f.size, growth);
    OutcomeMeans(growth, v, g, k, v.dir[k].size, Zeros(WholeBlocks(offset) - v.dir[k].size), f.size - v.dir[k].size,
                 fs.Disk(), fs.shape);
    if f.Open(fs) {
      SlotsMatch(fs.Disk(), fs.shape);
      TargetPlaced(fs.Disk(), fs.shape, k, f.current, f.previous, offset, Reach(v, g, k));
    }
    if filled < 0 { return -1; }
    f.offset := offset;
    r := 0;
  }

  /** file_seek to any offset: up to the file's last block it only moves the handle, further out it grows the file. */
  method FileSeekAnywhere(fs: FileSys, f: File?, delta: int, origin: Origin, growth: Growth) returns (r: int)
    requires -0x8000_0000 <= delta < 0x8000_0000
    requires Usable(f) ==> f.Open(fs)
    requires Usable(f) && Target(f.offset, f.size, delta, origin) / BLOCK_SIZE > f.size / BLOCK_SIZE ==>
               && WholeBlocks(Target(f.offset, f.size, delta, origin)) <= 0xFFFF_FFFF
               && fs.Roomy(FillClaims(|f.Chain(fs)|, f.size, Target(f.offset, f.size, delta, origin)))
    modifies fs, f
    ensures !old(Usable(f)) ==> r == -1 && fs.Disk() == old(fs.Disk()) && fs.shape == old(fs.shape)
    ensures old(Usable(f)) ==> f.slot == old(f.slot)
    ensures old(Usable(f)) && r == 0 ==>
              var sum := (match origin case SeekSet => 0 case SeekCur => old(f.offset) case SeekEnd => old(f.size))
                  + delta;
              f.offset == if sum < 0 then 0 else sum % 0x1_0000_0000
    ensures old(Usable(f)) ==>
              var target := old(Target(f.offset, f.size, delta, origin));
              if target / BLOCK_SIZE <= old(f.size) / BLOCK_SIZE then
                && r == 0 && f.offset == target && f.Open(fs)
                && fs.Disk() == old(fs.Disk()) && fs.shape == old(fs.shape) && fs.room == old(fs.room)
              else
                && fs.room >= old(fs.room - FillClaims(|f.Chain(fs)|, f.size, Target(f.offset, f.size, delta, origin)))
                && r == (if Refused(old(fs.Disk()), old(fs.shape), f.slot, target) then -1 else 0)
                && f.offset == (if r == -1 then f.size else target)
                && f.size == Min(WholeBlocks(target),
                    BLOCK_SIZE * old(Reach(fs.Disk(), fs.shape, f.slot))) >= old(f.size)
                && WriteOutcome(growth, old(fs.Disk()), old(fs.shape), f.slot, old(f.size),
                                Zeros(WholeBlocks(target) - old(f.size)), f.size - old(f.size), fs.Disk(), fs.shape)
                && (f.Open(fs) <==> SeekKeepsHandle(growth, old(fs.Disk()), old(fs.shape), f.slot, target))
  {
    hide WellFormed, Target, Placed, WriteOutcome, Reach, WholeBlocks, SeekKeepsHandle, Refused, FillClaims, Sealed,
        Zeros, Padded, Ahead;
    if f != null { TargetIsSum(f.offset, f.size, delta, origin); }
    if f == null || f.kind != TYPE_FILE { return -1; }
    var offset := Target(f.offset, f.size, delta, origin);
    if offset / BLOCK_SIZE <= f.size / BLOCK_SIZE {
      r := FileSeek(fs, f, delta, origin);
    } else {
      r := SeekPastEnd(fs, f, offset, growth);
    }
  }
}
