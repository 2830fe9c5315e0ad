/** filesys/file.c: open-file handles, and the operations on them. */
module FileOps {
  import opened Types
  import opened MemUtils
  import opened Volume
  import opened VolumeFacts
  import opened VolumeSteps
  import opened FileSystem
  import opened Directories
  import opened WriteProgress
  import opened WriteResult

  const TYPE_FILE: byte := 1

  datatype Origin = SeekSet | SeekCur | SeekEnd

  class File {
    var kind: byte
    var slot: int
    var size: u32
    var first: u32
    var current: u32
    var previous: u32
    var offset: u32

    constructor (slot: int, dentry: Dentry)
      ensures kind == TYPE_FILE && this.slot == slot && size == dentry.size && offset == 0
      ensures first == dentry.block && current == first && previous == first
    {
      kind, this.slot, size, offset := TYPE_FILE, slot, dentry.size, 0;
      first, current, previous := dentry.block, dentry.block, dentry.block;
    }

    /** The handle describes the file in its slot and caches a right position in its chain. */
    ghost predicate Open(fs: FileSys)
      reads this, fs
    {
      && fs.Valid() && kind == TYPE_FILE && 0 <= slot < SLOTS && Live(fs.shape, slot)
      && size == fs.dir[slot].size && first == fs.shape.chains[slot][0]
      && offset / BLOCK_SIZE <= size / BLOCK_SIZE
      && Placed(fs.shape.chains[slot], offset, current, previous)
    }

    ghost function Chain(fs: FileSys): seq<u32>
      requires Open(fs)
      reads this, fs
    {
      fs.shape.chains[slot]
    }

    ghost function Bytes(fs: FileSys): seq<byte>
      requires Open(fs)
      reads this, fs
    {
      Contents(fs.Disk(), fs.shape, slot)
    }
  }

  predicate Usable(f: File?)
    reads f
  {
    f != null && f.kind == TYPE_FILE
  }

  /** A position below the size is in a block of the chain, never at its end. */
  lemma PositionInChain(v: Vol, g: Shape, k: nat, offset: nat)
    requires WellFormed(v, g) && k < SLOTS && Live(g, k) && offset < v.dir[k].size
    ensures offset / BLOCK_SIZE < |g.chains[k]|
    ensures var e := g.chains[k][offset / BLOCK_SIZE];
            0 < e < v.total && v.table[e] == Next(g.chains[k], offset / BLOCK_SIZE)
  {
    assert Sized(v.dir, g, k);
    assert InPlace(v.table, v.total, g, k, offset / BLOCK_SIZE);
  }

  lemma BytesInBlock(v: Vol, g: Shape, k: nat, offset: nat, n: nat)
    requires WellFormed(v, g) && k < SLOTS && Live(g, k)
    requires offset + n <= v.dir[k].size && offset % BLOCK_SIZE + n <= BLOCK_SIZE && n > 0
    ensures offset / BLOCK_SIZE < |g.chains[k]| && g.chains[k][offset / BLOCK_SIZE] < |v.blocks|
    ensures v.blocks[g.chains[k][offset / BLOCK_SIZE]][offset % BLOCK_SIZE..offset % BLOCK_SIZE + n]
         == Contents(v, g, k)[offset..offset + n]
  {
    PositionInChain(v, g, k, offset);
    ChainInBlocks(v, g, k);
    var c, b, o := g.chains[k], offset / BLOCK_SIZE, offset % BLOCK_SIZE;
    RawBlock(v.blocks, c, b);
    assert Sized(v.dir, g, k);
    SliceOfSlice(Raw(v.blocks, c), BLOCK_SIZE * b, BLOCK_SIZE * (b + 1), o, n);
    SliceOfSlice(Raw(v.blocks, c), 0, v.dir[k].size, offset, n);
    assert Raw(v.blocks, c)[0..v.dir[k].size] == Contents(v, g, k);
  }

  lemma SliceOfSlice(s: seq<byte>, lo: nat, hi: nat, o: nat, n: nat)
    requires lo <= hi <= |s| && lo + o + n <= hi
    ensures s[lo..hi][o..o + n] == s[lo + o..lo + o + n]
  {
    var l, r := s[lo..hi][o..o + n], s[lo + o..lo + o + n];
    forall i | 0 <= i < n ensures l[i] == r[i] {}
  }

  /** Moves the handle on by n bytes, following the link when a block's end is reached.  `c` is the
      chain the cached position belongs to. */
  method Advance(fs: FileSys, f: File, n: nat, ghost c: seq<u32>)
    requires fs.Laid() && Placed(c, f.offset, f.current, f.previous) && f.offset / BLOCK_SIZE < |c|
    requires f.current < fs.total && fs.Table()[f.current] == Next(c, f.offset / BLOCK_SIZE)
    requires 0 < n <= BLOCK_SIZE - f.offset % BLOCK_SIZE && f.offset + n < 0x1_0000_0000
    modifies f`offset, f`current, f`previous
    ensures f.offset == old(f.offset) + n && Placed(c, f.offset, f.current, f.previous)
    ensures f.offset % BLOCK_SIZE != 0 ==> f.current == old(f.current)
  {
    PlacedMoves(c, f.offset, f.current, f.previous, n);
    f.offset := f.offset + n;
    if f.offset % BLOCK_SIZE == 0 {
      var got, next := fs.GetMte(f.current);
      if got {
        f.previous := f.current;
        f.current := next;
      }
    }
  }

  /** One round of file_read's loop: copy what the current block still holds of the request. */
  method ReadChunk(fs: FileSys, f: File, buf: array<byte>, rbuf: array<byte>, n: nat, total: nat, ghost v: Vol,
                   ghost g: Shape)
    returns (copy: nat)
    requires fs.Laid() && v == fs.Disk() && WellFormed(v, g)
    requires 0 <= f.slot < SLOTS && Live(g, f.slot) && Placed(g.chains[f.slot], f.offset, f.current, f.previous)
    requires buf != rbuf && rbuf.Length == BLOCK_SIZE && n < total <= buf.Length
    requires f.offset + total - n <= v.dir[f.slot].size
    modifies f`offset, f`current, f`previous, buf, rbuf
    ensures 0 < copy <= total - n && f.offset == old(f.offset) + copy
    ensures Placed(g.chains[f.slot], f.offset, f.current, f.previous)
    ensures Overwritten(old(buf[..]), n, Contents(v, g, f.slot)[old(f.offset)..f.offset], buf[..])
  {
    PositionInChain(v, g, f.slot, f.offset);
    var ok := fs.BlockRead(f.current, rbuf);
    var offset := f.offset % BLOCK_SIZE;
    copy := Min(BLOCK_SIZE - offset, total - n);
    BytesInBlock(v, g, f.slot, f.offset, copy);
    Memcpy(buf, n, rbuf[offset..offset + copy]);
    Advance(fs, f, copy, g.chains[f.slot]);
  }

  /** Overwriting the next `copy` bytes of a partly filled buffer fills it further. */
  lemma FilledFurther(was: seq<byte>, bytes: seq<byte>, start: nat, n: nat, copy: nat, before: seq<byte>,
                      after: seq<byte>)
    requires n + copy <= |was| == |before| && start + n + copy <= |bytes|
    requires Overwritten(was, 0, bytes[start..start + n], before)
    requires Overwritten(before, n, bytes[start + n..start + n + copy], after)
    ensures Overwritten(was, 0, bytes[start..start + n + copy], after)
  {
  }

  /** The loop of file_read. */
  method ReadLoop(fs: FileSys, f: File, buf: array<byte>, total: nat, ghost v: Vol, ghost g: Shape)
    requires fs.Laid() && v == fs.Disk() && WellFormed(v, g)
    requires 0 <= f.slot < SLOTS && Live(g, f.slot) && Placed(g.chains[f.slot], f.offset, f.current, f.previous)
    requires total <= buf.Length && f.offset + total <= v.dir[f.slot].size
    modifies f`offset, f`current, f`previous, buf
    ensures f.offset == old(f.offset) + total
    ensures Placed(g.chains[f.slot], f.offset, f.current, f.previous)
    ensures Overwritten(old(buf[..]), 0, Contents(v, g, f.slot)[old(f.offset)..f.offset], buf[..])
  {
    hide WellFormed, Contents, Placed;
    var rbuf := new byte[BLOCK_SIZE];
    ghost var start, was, bytes := f.offset, buf[..], Contents(v, g, f.slot);
    var n := 0;
    while n < total
      invariant n <= total && f.offset == start + n
      invariant Placed(g.chains[f.slot], f.offset, f.current, f.previous)
      invariant Overwritten(was, 0, bytes[start..start + n], buf[..])
    {
      ghost var before := buf[..];
      var copy := ReadChunk(fs, f, buf, rbuf, n, total, v, g);
      FilledFurther(was, bytes, start, n, copy, before, buf[..]);
      n := n + copy;
    }
  }

  /** file_read: delivers exactly the bytes at the handle's position, as many as asked for and left. */
  method FileRead(fs: FileSys, f: File?, buf: array<byte>, size: u32) returns (n: u32)
    requires Usable(f) ==> f.Open(fs)
    requires size <= buf.Length
    modifies f, buf
    ensures !old(Usable(f)) ==> n == 0 && buf[..] == old(buf[..])
    ensures old(Usable(f)) ==>
              && f.Open(fs) && f.slot == old(f.slot)
              && n == (if old(f.offset) >= f.size then 0 else Min(size, f.size - old(f.offset)))
              && f.offset == old(f.offset) + n
              && (n == 0 ==> buf[..] == old(buf[..]))
              && (n > 0 ==> Overwritten(old(buf[..]), 0, f.Bytes(fs)[old(f.offset)..f.offset], buf[..]))
  {
    if f == null || f.kind != TYPE_FILE { return 0; }
    if f.offset >= f.size || f.current == LAST_BLOCK {
      if f.offset < f.size { PositionInChain(fs.Disk(), fs.shape, f.slot, f.offset); }
      return 0;
    }
    n := Min(size, f.size - f.offset);
    ReadLoop(fs, f, buf, n, fs.Disk(), fs.shape);
  }

  // ----- writing -----

  /** s describes where the disk and the handle are. */
  ghost predicate Stands(fs: FileSys, f: File, s: Stand)
    reads fs, f
  {
    s.v == fs.Disk() && s.g == fs.shape && s.current == f.current && s.previous == f.previous
  }

  /** How many blocks a write of n bytes at `offset` adds to m. */
  function Missing(m: nat, offset: nat, n: nat): nat {
    if n == 0 then 0 else Max(0, BlocksFor(offset + n) - m)
  }

  /** The first half of a round of file_write's loop: make the handle stand on a block, claiming one
      at the chain's end, and load the bytes that the write will not cover. */
  method TakeBlock(fs: FileSys, f: File, left: nat, wbuf: array<byte>, growth: Growth, ghost c: seq<u32>)
    returns (ok: bool)
    requires fs.mounted && fs.Laid() && |fs.blocks| == fs.total && wbuf.Length == BLOCK_SIZE && left > 0
    requires Walkable(fs.Table(), fs.total, c, f.offset, f.current, f.previous)
    requires f.offset / BLOCK_SIZE == |c| ==> fs.Roomy(1)
    modifies fs`table, fs`lastAllocated, fs`room, f`current, wbuf
    ensures fs.room == old(fs.room) - (if ok && f.offset / BLOCK_SIZE == |c| then 1 else 0)
    ensures fs.Laid() && |fs.Table()| == |old(fs.Table())|
    ensures !ok ==> f.offset / BLOCK_SIZE == |c| && NoFreeEntry(fs.Table())
    ensures !ok ==> fs.Table() == old(fs.Table()) && f.current == old(f.current)
    ensures ok ==> 0 < f.current < fs.total
    ensures ok && f.offset / BLOCK_SIZE < |c| ==>
              && f.current == old(f.current) && fs.Table() == old(fs.Table())
              && (f.offset % BLOCK_SIZE != 0 || left < BLOCK_SIZE ==> wbuf[..] == fs.blocks[f.current])
    ensures ok && f.offset / BLOCK_SIZE == |c| ==>
              && wbuf[..] == ZeroBlock() && old(fs.Table())[f.current] == FREE_BLOCK
              && fs.Table() == Claimed(old(fs.Table()), f.current,
                                       if growth.FromCurrent? then LAST_BLOCK else f.previous)
    ensures ok ==>
              var c' := if f.offset / BLOCK_SIZE < |c| then c else c + [f.current];
              f.offset / BLOCK_SIZE < |c'| && Placed(c', f.offset, f.current, f.previous)
              && fs.Table()[f.current] == Next(c', f.offset / BLOCK_SIZE)
    ensures f.offset / BLOCK_SIZE <= |c| && f.previous < fs.total
  {
    if f.current == LAST_BLOCK {
      var claimed := fs.AllocDataBlock(if growth.FromCurrent? then f.current else f.previous);
      if claimed == LAST_BLOCK { return false; }
      f.current := claimed;
      Memset(wbuf, 0, BLOCK_SIZE);
    } else if f.offset % BLOCK_SIZE != 0 || left < BLOCK_SIZE {
      var got := fs.BlockRead(f.current, wbuf);
    }
    return true;
  }

  lemma BufferIsPatched(base: Block, buf: seq<byte>, o: nat, chunk: seq<byte>, nb: Block)
    requires |buf| == BLOCK_SIZE && o + |chunk| <= BLOCK_SIZE && Overwritten(buf, o, chunk, nb)
    requires o != 0 || |chunk| < BLOCK_SIZE ==> buf == base
    ensures PatchedBlock(base, o, chunk, nb)
  {
  }

  /** The second half: fill the buffer, write it to the block and move on. */
  method StoreChunk(fs: FileSys, f: File, chunk: seq<byte>, wbuf: array<byte>, ghost c: seq<u32>)
    requires fs.Laid() && |fs.blocks| == fs.total && wbuf.Length == BLOCK_SIZE && 0 < f.current < fs.total
    requires 0 < |chunk| <= BLOCK_SIZE - f.offset % BLOCK_SIZE && f.offset + |chunk| < 0x1_0000_0000
    requires Placed(c, f.offset, f.current, f.previous) && f.offset / BLOCK_SIZE < |c|
    requires fs.Table()[f.current] == Next(c, f.offset / BLOCK_SIZE)
    modifies fs`blocks, f`offset, f`current, f`previous, wbuf
    ensures Overwritten(old(wbuf[..]), old(f.offset) % BLOCK_SIZE, chunk, wbuf[..])
    ensures fs.blocks == old(fs.blocks)[old(f.current) := wbuf[..]]
    ensures f.offset == old(f.offset) + |chunk| && Placed(c, f.offset, f.current, f.previous)
  {
    hide Placed, Next, Sealed, Ahead, Padded, Overwritten;
    Memcpy(wbuf, f.offset % BLOCK_SIZE, chunk);
    var written := fs.BlockWrite(f.current, wbuf);
    Advance(fs, f, |chunk|, c);
  }

  /** One round of file_write's loop: take a block, fill what it holds of the request, write it back
      and move on.  `e` is the block written and `nb` what it holds afterwards. */
  method WriteChunk(fs: FileSys, f: File, data: seq<byte>, w: nat, wbuf: array<byte>, growth: Growth, ghost s: Stand)
    returns (ok: bool, copy: nat, ghost e: u32, ghost nb: Block, ghost done: Stand)
    requires fs.mounted && fs.Laid() && |fs.blocks| == fs.total && wbuf.Length == BLOCK_SIZE && Stands(fs, f, s)
    requires Walkable(fs.Table(), fs.total, s.c, f.offset, f.current, f.previous)
    requires w < |data| && f.offset + |data| - w < 0x1_0000_0000
    requires f.offset / BLOCK_SIZE == |s.c| ==> fs.Roomy(1)
    modifies fs`table, fs`lastAllocated, fs`room, fs`blocks, f`offset, f`current, f`previous, wbuf
    ensures fs.Laid() && |fs.Table()| == |old(fs.Table())|
    ensures !ok ==> f.offset == old(f.offset) && f.offset / BLOCK_SIZE == |s.c|
    ensures !ok ==> NoFreeEntry(fs.Table()) && Stands(fs, f, s)
    ensures ok ==> 0 < copy <= |data| - w && f.offset == old(f.offset) + copy && Stands(fs, f, done)
    ensures ok ==> ChunkDone(growth, s, old(f.offset), data[w..w + copy], e, nb, done)
    ensures ok ==> copy <= BLOCK_SIZE - old(f.offset) % BLOCK_SIZE
    ensures ok ==> |done.c| == (if old(f.offset) / BLOCK_SIZE == |s.c| then |s.c| + 1 else |s.c|)
    ensures ok ==> fs.room + |done.c| == old(fs.room) + |s.c|
    ensures !ok ==> fs.room == old(fs.room)
  {
    hide Walkable, Placed, PatchedBlock, Overwritten, Claimed, Next, ChunkDone, Sealed, Ahead, Padded, WellFormed;
    ok := TakeBlock(fs, f, |data| - w, wbuf, growth, s.c);
    e := f.current;
    nb := wbuf[..];
    done := s;
    if !ok { return ok, 0, e, nb, done; }
    copy := Min(BLOCK_SIZE - f.offset % BLOCK_SIZE, |data| - w);
    ghost var loaded, at := wbuf[..], f.offset;
    ghost var c := if at / BLOCK_SIZE < |s.c| then s.c else s.c + [e];
    StoreChunk(fs, f, data[w..w + copy], wbuf, c);
    nb := wbuf[..];
    done := Stand(fs.Disk(), s.g, c, f.current, f.previous, s.strayed);
    ChunkIsDone(growth, s, at, e, loaded, data[w..w + copy], nb, done);
  }

  lemma ChunkIsDone(growth: Growth, s: Stand, at: nat, e: u32, loaded: seq<byte>, chunk: seq<byte>, nb: Block,
                    done: Stand)
    requires 0 < |chunk| <= BLOCK_SIZE - at % BLOCK_SIZE && |loaded| == BLOCK_SIZE
    requires Overwritten(loaded, at % BLOCK_SIZE, chunk, nb)
    requires 0 < e < |s.v.blocks| && e < |s.v.table| && s.previous < |s.v.table| && at / BLOCK_SIZE <= |s.c|
    requires done.v.total == s.v.total && done.v.dir == s.v.dir && done.v.blocks == s.v.blocks[e := nb]
    requires at / BLOCK_SIZE == |s.c| ==>
               && loaded == ZeroBlock() && s.v.table[e] == FREE_BLOCK && done.c == s.c + [e]
               && done.v.table == Claimed(s.v.table, e, if growth.FromCurrent? then LAST_BLOCK else s.previous)
    requires at / BLOCK_SIZE < |s.c| ==>
               && (at % BLOCK_SIZE != 0 || |chunk| < BLOCK_SIZE ==> loaded == s.v.blocks[e])
               && e == s.current && done.v.table == s.v.table && done.c == s.c
    requires Placed(done.c, at + |chunk|, done.current, done.previous)
    ensures ChunkDone(growth, s, at, chunk, e, nb, done)
  {
    hide Placed, PatchedBlock, Overwritten, Claimed;
    BufferIsPatched(Base(s, at / BLOCK_SIZE == |s.c|, e), loaded, at % BLOCK_SIZE, chunk, nb);
  }

  /** A round that grows the file past m blocks takes one of those that were missing at first. */
  lemma MissingNow(m0: nat, m: nat, offset: nat, size: nat, n: nat)
    requires n < size
    ensures (offset + n) / BLOCK_SIZE == m ==> Missing(m0, offset, size) + m0 > m
  {
  }

  lemma MissingAtMost(m: nat, offset: nat, n: nat, size: nat)
    requires n <= size
    ensures Max(m, if n == 0 then 0 else BlocksFor(offset + n)) <= m + Missing(m, offset, size)
  {
  }

  /** The loop of file_write, continuing where a write of `before` stands.  It ends when the request or the
      free space is used up. */
  method WriteLoop(fs: FileSys, f: File, data: seq<byte>, growth: Growth, ghost j: Job, ghost before: seq<byte>,
                   ghost s0: Stand)
    returns (n: nat, ghost s: Stand)
    requires fs.mounted && fs.Laid() && Stands(fs, f, s0) && Underway(growth, j, before, s0)
    requires f.offset == j.offset + |before| && f.offset + |data| < 0x1_0000_0000
    requires fs.Roomy(Missing(|s0.c|, f.offset, |data|))
    modifies fs`table, fs`lastAllocated, fs`room, fs`blocks, fs`shape, f`offset, f`current, f`previous
    ensures n <= |data| && f.offset == old(f.offset) + n && fs.Laid()
    ensures n < |data| ==> NoFreeEntry(fs.Table()) && f.offset / BLOCK_SIZE == |s.c|
    ensures Stands(fs, f, s) && Underway(growth, j, before + data[..n], s)
    ensures fs.room + |s.c| == old(fs.room) + |s0.c|
  {
    hide Underway, ChunkDone, Walkable, Missing, Sealed, Ahead, Padded, WellFormed;
    var wbuf := new byte[BLOCK_SIZE];
    s, n := s0, 0;
    assert before + data[..0] == before;
    while n < |data|
      invariant n <= |data| && f.offset == j.offset + |before| + n && fs.Laid()
      invariant Stands(fs, f, s) && Underway(growth, j, before + data[..n], s)
      invariant fs.room + |s.c| == old(fs.room) + |s0.c|
    {
      ghost var sofar := before + data[..n];
      UnderwayWalkable(growth, j, sofar, s);
      MissingNow(|s0.c|, |s.c|, old(f.offset), |data|, n);
      var ok, copy, e, nb, done := WriteChunk(fs, f, data, n, wbuf, growth, s);
      if !ok { break; }
      assert before + data[..n + copy] == sofar + data[n..n + copy];
      s := Round(growth, j, sofar, s, data[n..n + copy], e, nb, done);
      fs.shape := s.g;
      n := n + copy;
    }
  }

  /** The end of file_write: a position past the recorded size becomes the size. */
  method RecordSize(fs: FileSys, f: File)
    requires |fs.dir| == SLOTS && 0 <= f.slot < SLOTS && fs.dir[f.slot].size == f.size
    modifies fs`dir, f`size
    ensures f.size == Max(old(f.size), f.offset)
    ensures fs.dir == old(fs.dir)[f.slot := old(fs.dir)[f.slot].(size := f.size)]
  {
    if f.size < f.offset {
      var got, dentry := GetDe(fs, f.slot);
      var recorded := SetDe(fs, f.slot, dentry.(size := f.offset));
      f.size := f.offset;
    }
  }

  /** file_write behind its guard, continuing where a write of `before` stands: the loop, and recording a
      larger size. */
  method WriteOn(fs: FileSys, f: File, data: seq<byte>, growth: Growth, ghost j: Job, ghost before: seq<byte>,
                 ghost s0: Stand)
    returns (n: nat, ghost s: Stand)
    requires fs.mounted && fs.Laid() && Stands(fs, f, s0) && Underway(growth, j, before, s0)
    requires f.slot == j.k < SLOTS == |fs.dir| && fs.dir[f.slot].size == f.size
    requires f.offset == j.offset + |before| && f.offset + |data| < 0x1_0000_0000
    requires fs.Roomy(Missing(|s0.c|, f.offset, |data|))
    modifies fs`table, fs`lastAllocated, fs`room, fs`blocks, fs`shape, fs`dir, f`offset, f`current, f`previous, f`size
    ensures fs.room + |s.c| == old(fs.room) + |s0.c|
    ensures n <= |data| && f.offset == old(f.offset) + n && fs.Laid()
    ensures n < |data| ==> NoFreeEntry(fs.Table()) && f.offset / BLOCK_SIZE == |s.c|
    ensures Stands(fs, f, s) && Underway(growth, j, before + data[..n], s)
    ensures |fs.dir| == SLOTS && fs.dir[f.slot].size == f.size == Max(old(f.size), f.offset)
  {
    hide Underway;
    n, s := WriteLoop(fs, f, data, growth, j, before, s0);
    UnderwayResized(growth, j, before + data[..n], s, Max(f.size, f.offset));
    RecordSize(fs, f);
    s := s.(v := fs.Disk());
  }

  /** file_write: the bytes the disk has room for at the handle's position, all other files untouched, exactly
      when the write keeps the shape; otherwise the chain is as before, the recorded size past its end and
      the disk has no shape any more. */
  method FileWrite(fs: FileSys, f: File?, data: seq<byte>, growth: Growth) returns (n: u32)
    requires Usable(f) ==> f.Open(fs) && f.offset + |data| < 0x1_0000_0000
    requires Usable(f) ==> fs.Roomy(Missing(|f.Chain(fs)|, f.offset, |data|))
    modifies fs, f
    ensures old(Usable(f)) ==> fs.room >= old(fs.room - Missing(|f.Chain(fs)|, f.offset, |data|))
    ensures !old(Usable(f)) ==> n == 0 && fs.Disk() == old(fs.Disk()) && fs.shape == old(fs.shape)
    ensures old(Usable(f)) ==> f.slot == old(f.slot) && n <= |data| && f.offset == old(f.offset) + n
    ensures old(Usable(f)) ==> f.size == Max(old(f.size), f.offset)
    ensures old(Usable(f)) ==>
              WriteOutcome(growth, old(fs.Disk()), old(fs.shape), f.slot, old(f.offset), data, n, fs.Disk(), fs.shape)
    ensures old(Usable(f)) ==>
              (f.Open(fs) <==> KeepsShape(growth, old(fs.Disk()), old(fs.shape), f.slot, old(f.offset), |data|))
  {
    hide WellFormed, Placed, WriteOutcome, KeepsShape, Underway, Missing, Sealed;
    if f == null || f.kind != TYPE_FILE { return 0; }
    SlotsMatch(fs.Disk(), fs.shape);
    ghost var j := Job(fs.Disk(), fs.shape, f.slot, f.offset);
    UnderwayStart(growth, j, f.current, f.previous);
    ghost var s := Stand(j.v, j.g, j.g.chains[j.k], f.current, f.previous, false);
    assert [] + data == data;
    n, s := WriteOn(fs, f, data, growth, j, [], s);
    assert [] + data[..n] == data[..n];
    UnderwayLength(growth, j, data[..n], s);
    MissingAtMost(|j.g.chains[j.k]|, j.offset, n, |data|);
    WriteEnds(growth, j, data, n, s);
  }

  // ----- moving about -----

  /** The offset that file_seek aims at, in the code's unsigned 32-bit arithmetic. */
  function Target(offset: u32, size: u32, delta: int, origin: Origin): u32
    requires -0x8000_0000 <= delta < 0x8000_0000
  {
    match origin
    case SeekSet => if delta < 0 then 0 else delta
    case SeekCur => if delta < 0 && offset <= -delta then 0 else (offset + delta) % 0x1_0000_0000
    case SeekEnd => if delta < 0 && size <= -delta then 0 else (size + delta) % 0x1_0000_0000
  }

  /** It is the sum, not below 0, in 32 bits. */
  lemma TargetIsSum(offset: u32, size: u32, delta: int, origin: Origin)
    requires -0x8000_0000 <= delta < 0x8000_0000
    ensures var sum := (match origin case SeekSet => 0 case SeekCur => offset case SeekEnd => size) + delta;
            Target(offset, size, delta, origin) == if sum < 0 then 0 else sum % 0x1_0000_0000
  {
  }

  /** The loop of file_seek: follow `moves` links from the block at position `from`. */
  method FollowLinks(fs: FileSys, block: u32, moves: nat, ghost v: Vol, ghost g: Shape, ghost k: nat, ghost from: nat)
    returns (ok: bool, current: u32, previous: u32)
    requires fs.Laid() && v == fs.Disk() && WellFormed(v, g) && k < SLOTS && Live(g, k)
    requires from + moves <= |g.chains[k]| && block == (if from < |g.chains[k]| then g.chains[k][from] else LAST_BLOCK)
    ensures ok
    ensures current == (if from + moves < |g.chains[k]| then g.chains[k][from + moves] else LAST_BLOCK)
    ensures moves > 0 ==> previous == g.chains[k][from + moves - 1]
  {
    ghost var c := g.chains[k];
    current, previous := block, block;
    for i := 0 to moves
      invariant current == (if from + i < |c| then c[from + i] else LAST_BLOCK)
      invariant i > 0 ==> previous == c[from + i - 1]
    {
      assert InPlace(v.table, v.total, g, k, from + i);
      previous := current;
      var got, next := fs.GetMte(previous);
      if !got { return false, current, previous; }
      current := next;
    }
    return true, current, previous;
  }

  /** Where the ways of moving leave the cached position. */
  lemma SeekLands(v: Vol, g: Shape, k: nat, at: nat, current: u32, previous: u32, offset: nat, block: u32, moves: nat,
                  current': u32, previous': u32)
    requires WellFormed(v, g) && k < SLOTS && Live(g, k) && offset / BLOCK_SIZE <= v.dir[k].size / BLOCK_SIZE
    requires var c, b := g.chains[k], offset / BLOCK_SIZE;
             && Placed(c, at, current, previous)
             && (if at / BLOCK_SIZE <= b then moves == b - at / BLOCK_SIZE && block == current
                 else moves == b && block == c[0])
             && (if moves > 0 then
                   (b <= |c| ==> current' == (if b < |c| then c[b] else LAST_BLOCK) && previous' == c[b - 1])
                 else if block == c[0] then current' == previous' == c[0]
                 else current' == current && previous' == previous)
    ensures Placed(g.chains[k], offset, current', previous')
  {
    assert Sized(v.dir, g, k);
    ChainFacts(v.table, v.total, g, k);
  }

  lemma SeekReaches(v: Vol, g: Shape, k: nat, offset: nat, at: nat, current: u32, previous: u32)
    requires WellFormed(v, g) && Live(g, k) && Placed(g.chains[k], at, current, previous)
    ensures k < SLOTS == |v.dir|
    ensures offset / BLOCK_SIZE <= v.dir[k].size / BLOCK_SIZE ==> offset / BLOCK_SIZE <= |g.chains[k]|
    ensures var b, c := at / BLOCK_SIZE, g.chains[k]; b <= |c| && current == if b < |c| then c[b] else LAST_BLOCK
  {
    assert Sized(v.dir, g, k);
  }

  /** The part of file_seek that finds the block: on from the cached position, or from the first block
      if the target lies before it. */
  method Reposition(fs: FileSys, f: File, offset: u32)
    requires f.Open(fs) && offset / BLOCK_SIZE <= f.size / BLOCK_SIZE
    modifies f`offset, f`current, f`previous
    ensures f.Open(fs) && f.offset == offset
  {
    hide WellFormed, Placed;
    var target, at := offset / BLOCK_SIZE, f.offset / BLOCK_SIZE;
    ghost var v, g, k := fs.Disk(), fs.shape, f.slot;
    SeekReaches(v, g, k, offset, f.offset, f.current, f.previous);
    ghost var current0, previous0 := f.current, f.previous;
    var moves, block := target, f.first;
    if at <= target {
      moves, block := target - at, f.current;
    }
    var ok, current, previous := FollowLinks(fs, block, moves, v, g, k, target - moves);
    if moves > 0 {
      f.previous := previous;
      f.current := current;
    } else if block == f.first {
      f.previous := f.first;
      f.current := f.first;
    }
    SeekLands(v, g, k, f.offset, current0, previous0, offset, block, moves, f.current, f.previous);
    f.offset := offset;
  }

  /** file_seek to an offset in or just behind the file's last block: wherever the handle stood, it
      now stands on the block that holds the offset. */
  method FileSeek(fs: FileSys, f: File?, delta: int, origin: Origin) returns (r: int)
    requires -0x8000_0000 <= delta < 0x8000_0000
    requires Usable(f) ==> f.Open(fs) && Target(f.offset, f.size, delta, origin) / BLOCK_SIZE <= f.size / BLOCK_SIZE
    modifies f
    ensures !old(Usable(f)) ==> r == -1
    ensures old(Usable(f)) ==>
              && r == 0 && f.Open(fs) && f.slot == old(f.slot)
              && f.offset == Target(old(f.offset), f.size, delta, origin)
    ensures old(Usable(f)) ==>
              var sum := (match origin case SeekSet => 0 case SeekCur => old(f.offset) case SeekEnd => f.size) + delta;
              f.offset == if sum < 0 then 0 else sum % 0x1_0000_0000
  {
    hide Target;
    if f != null { TargetIsSum(f.offset, f.size, delta, origin); }
    if f == null || f.kind != TYPE_FILE { return -1; }
    Reposition(fs, f, Target(f.offset, f.size, delta, origin));
    r := 0;
  }

  // ----- creating, opening, removing -----

  /** file_create: claims a block and a slot for a new empty file, or leaves table and directory as
      they were; it fails exactly when one of the two cannot be had. */
  method FileCreate(fs: FileSys, name: string) returns (ok: bool, dentry: Dentry, index: int)
    requires fs.Valid() && LegalName(name) && name !in Files(fs.Disk(), fs.shape) && fs.Roomy(1)
    modifies fs
    ensures fs.Valid() && fs.room >= old(fs.room) - 1
    ensures ok <==> old(fs.Free()) != {} && exists k: nat :: k < SLOTS && !Live(old(fs.shape), k)
    ensures !ok ==> fs.Disk() == old(fs.Disk()) && fs.shape == old(fs.shape)
    ensures ok ==>
              && 0 <= index < SLOTS && !Live(old(fs.shape), index)
              && dentry == fs.dir[index] && dentry.name == name
              && Emptied(old(fs.Disk()), old(fs.shape), index, fs.Disk(), fs.shape)
  {
    hide WellFormed, Emptied, Files, Live, Created, Start, Sealed, Ahead, Padded;
    ghost var v, g := fs.Disk(), fs.shape;
    AllocatesFree(v, g);
    dentry, index := EMPTY_DENTRY, -1;
    var block := fs.AllocDataBlock(LAST_BLOCK);
    if block == LAST_BLOCK {
      return false, dentry, index;
    }
    index := FindFreeDentry(fs);
    if index < 0 {
      fs.SetMte(block, FREE_BLOCK);
      assert fs.Table() == v.table;
      return false, dentry, index;
    }
    dentry := Dentry(name, 0, block);
    var entered := SetDe(fs, index, dentry);
    fs.shape := Start(g, index, block);
    CreateIsEmptyFile(v, g, index, dentry, fs.Disk(), fs.shape);
    EmptiedIsWellFormed(v, g, index, fs.Disk(), fs.shape);
    return true, dentry, index;
  }

  /** The slot that find_dentry reports is the file of that name; it reports none only if there is none. */
  lemma FoundSlot(v: Vol, g: Shape, name: string, index: int)
    requires WellFormed(v, g) && LegalName(name) && -1 <= index < SLOTS
    requires index >= 0 ==> v.dir[index].name == name
    requires forall i :: 0 <= i < (if index < 0 then SLOTS else index) ==> v.dir[i].name != name
    ensures index >= 0 <==> name in Files(v, g)
    ensures index >= 0 ==> Live(g, index) && v.dir[index].block == g.chains[index][0]
  {
    if index >= 0 {
      assert SlotOk(v.dir, g, index);
      FilesAt(v, g, index);
    } else if name in Files(v, g) {
      var k := SlotOf(v, g, name);
    }
  }

  /** Opening with 'w': all blocks but the first are freed and the size becomes 0. */
  method Truncate(fs: FileSys, index: int, dentry: Dentry) returns (ok: bool, truncated: Dentry)
    requires fs.Valid() && 0 <= index < SLOTS && Live(fs.shape, index) && dentry == fs.dir[index]
    modifies fs
    ensures ok && fs.Valid() && fs.room == old(fs.room) && truncated == fs.dir[index] && truncated.name == dentry.name
    ensures Emptied(old(fs.Disk()), old(fs.shape), index, fs.Disk(), fs.shape)
  {
    hide WellFormed, Emptied, Freed, Cut, Walk, Live, Sealed, Ahead, Padded;
    ghost var v, g, k := fs.Disk(), fs.shape, index;
    TailIsWalk(v, g, k, 1);
    ghost var c := g.chains[k];
    var got, second := fs.GetMte(dentry.block);
    fs.SetMte(dentry.block, LAST_BLOCK);
    ok := fs.FreeBlocksAll(second, c[1..]);
    truncated := dentry.(size := 0);
    var entered := SetDe(fs, index, truncated);
    fs.shape := Cut(g, k, 1);
    TruncateIsEmpty(v, g, k, fs.Disk());
    EmptiedIsWellFormed(v, g, k, fs.Disk(), fs.shape);
  }

  /** file_open.  The name must have 1 to 23 characters.  A missing file is created unless the mode is
      'r'; an existing one is emptied by 'w'; 'a' starts at the end; the handle is placed accordingly. */
  method FileOpen(fs: FileSys, name: string, mode: char) returns (f: File?)
    requires fs.Valid() && fs.Roomy(if name in Files(fs.Disk(), fs.shape) || mode == 'r' then 0 else 1)
    modifies fs
    ensures fs.Valid()
    ensures fs.room >= old(fs.room) - if name in old(Files(fs.Disk(), fs.shape)) || mode == 'r' then 0 else 1
    ensures f == null <==>
              || !LegalName(name)
              || (name !in old(Files(fs.Disk(), fs.shape))
                  && (mode == 'r' || old(fs.Free()) == {} || forall k: nat :: k < SLOTS ==> Live(old(fs.shape), k)))
    ensures f == null ==> fs.Disk() == old(fs.Disk()) && fs.shape == old(fs.shape)
    ensures f != null ==>
              && fresh(f) && f.Open(fs) && fs.dir[f.slot].name == name
              && f.offset == (if mode == 'a' then f.size else 0)
    ensures f != null && name in old(Files(fs.Disk(), fs.shape)) && mode != 'w' ==>
              fs.Disk() == old(fs.Disk()) && fs.shape == old(fs.shape)
    ensures f != null && (name !in old(Files(fs.Disk(), fs.shape)) || mode == 'w') ==>
              Emptied(old(fs.Disk()), old(fs.shape), f.slot, fs.Disk(), fs.shape)
  {
    hide WellFormed, Emptied;
    if |name| > MAX_NAME || |name| == 0 { return null; }
    assert |fs.dir| == SLOTS by { SlotsMatch(fs.Disk(), fs.shape); }
    var index, dentry := FindDentry(fs, name);
    FoundSlot(fs.Disk(), fs.shape, name, index);
    if index < 0 {
      if mode == 'r' { return null; }
      var ok;
      ok, dentry, index := FileCreate(fs, name);
      if !ok { return null; }
      EmptiedIsWellFormed(old(fs.Disk()), old(fs.shape), index, fs.Disk(), fs.shape);
    } else if mode == 'w' {
      var ok;
      ok, dentry := Truncate(fs, index, dentry);
      EmptiedIsWellFormed(old(fs.Disk()), old(fs.shape), index, fs.Disk(), fs.shape);
    }
    f := new File(index, dentry);
    if mode == 'a' {
      var r := FileSeek(fs, f, 0, SeekEnd);
    }
  }

  /** file_remove: frees exactly the file's blocks and takes its name, and no other, off the volume. */
  method FileRemove(fs: FileSys, name: string) returns (r: int, ghost k: nat)
    requires fs.Valid()
    modifies fs
    ensures fs.Valid() && fs.room == old(fs.room) && (r == 0 || r == -1)
    ensures r == 0 <==> LegalName(name) && name in old(Files(fs.Disk(), fs.shape))
    ensures r == -1 ==> fs.Disk() == old(fs.Disk()) && fs.shape == old(fs.shape)
    ensures r == 0 ==> |old(fs.dir)| == SLOTS && k < SLOTS && old(fs.dir)[k].name == name
                       && Removed(old(fs.Disk()), old(fs.shape), k, fs.Disk(), fs.shape)
  {
    hide WellFormed, Removed, Files, Freed, Cut, Walk, Live, Sealed, Ahead, Padded;
    k := 0;
    SlotsMatch(fs.Disk(), fs.shape);
    if |name| > MAX_NAME || |name| == 0 { return -1, k; }
    var index, dentry := FindDentry(fs, name);
    FoundSlot(fs.Disk(), fs.shape, name, index);
    if index < 0 { return -1, k; }
    k := index;
    ghost var v, g := fs.Disk(), fs.shape;
    TailIsWalk(v, g, k, 0);
    assert g.chains[k][0..] == g.chains[k];
    var freed := fs.FreeBlocksAll(dentry.block, g.chains[k]);
    var entered := SetDe(fs, index, EMPTY_DENTRY);
    fs.shape := Cut(g, k, 0);
    RemoveIsMinus(v, g, k, fs.Disk());
    assert WellFormed(fs.Disk(), fs.shape) by { RemovedIsWellFormed(v, g, k, fs.Disk(), fs.shape); }
    return 0, k;
  }

  /** Handles on other files survive whatever an operation does to the file in slot k. */
  twostate lemma OtherHandlesStayOpen(fs: FileSys, f: File, k: nat)
    requires old(f.Open(fs)) && unchanged(f) && f.slot != k && fs.Valid()
    requires SameElsewhere(old(fs.Disk()), old(fs.shape), fs.Disk(), fs.shape, k)
    ensures f.Open(fs)
  {
    assert SameFile(old(fs.Disk()), old(fs.shape), fs.Disk(), fs.shape, f.slot);
  }
}
