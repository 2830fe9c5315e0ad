/** Whole runs of one open file: any sequence of reads, writes and seeks behaves as the same sequence on the bytes of
    the file's blocks with a size and a position, whatever blocks the handle caches. */
module HandleRuns {
  import opened Types
  import opened MemUtils
  import opened Volume
  import opened VolumeFacts
  import opened FileSystem
  import opened FileOps
  import opened FileSystemRuns
  import opened WriteProgress
  import opened WriteResult
  import opened ImageRoundTrip
  import opened ExtendingSeek

  /** The bytes of the file's blocks, also those behind its size; size and position; how many blocks are free. */
  datatype Cursor = Cursor(raw: seq<byte>, size: nat, at: nat, free: nat)

  datatype HandleOp = Read(n: u32) | Write(data: seq<byte>) | Seek(delta: int, origin: Origin)

  /** The file has whole blocks, at least for its size. */
  ghost predicate Sound(c: Cursor) {
    |c.raw| % BLOCK_SIZE == 0 && c.size <= |c.raw|
  }

  /** A write at the cursor's position takes what there is room for and claims the blocks that it needs, zeroed. */
  ghost function Put(c: Cursor, data: seq<byte>): Cursor
    requires Sound(c)
  {
    var m := Max(0, Min(|data|, |c.raw| + BLOCK_SIZE * c.free - c.at));
    var own := |c.raw| / BLOCK_SIZE;
    var blocks := if m == 0 then own else Max(own, BlocksFor(c.at + m));
    Cursor(RawAfter(c.raw, c.at, data[..m], BLOCK_SIZE * blocks), Max(c.size, c.at + m), c.at + m,
           c.free + own - blocks)
  }

  /** A write of `size` bytes keeps the disk's shape. */
  predicate Fits(growth: Growth, c: Cursor, size: nat) {
    && (growth.FromPrevious? || size == 0 || c.at + size <= |c.raw| || c.free == 0)
    && (c.at <= |c.raw| || (size > 0 && c.free > 0))
  }

  predicate InRange(c: Cursor, target: nat) {
    target / BLOCK_SIZE <= c.size / BLOCK_SIZE
  }

  /** A seek behind the last block whose fill, of 2 GiB or more, succeeds and passes for an error. */
  predicate Refuses(c: Cursor, target: nat) {
    WholeBlocks(target) - c.size >= 0x8000_0000 && WholeBlocks(target) <= |c.raw| + BLOCK_SIZE * c.free
  }

  /** A seek behind the last block fills with zeros to a block's end and leaves a right handle. */
  predicate Extends(growth: Growth, c: Cursor, target: nat) {
    && WholeBlocks(target) <= 0xFFFF_FFFF
    && (growth.FromPrevious? || WholeBlocks(target) <= |c.raw| || c.free == 0)
    && if WholeBlocks(target) <= |c.raw| + BLOCK_SIZE * c.free then target % BLOCK_SIZE == 0 || Refuses(c, target)
       else target / BLOCK_SIZE == |c.raw| / BLOCK_SIZE + c.free
  }

  /** Numbers stay within 32 bits; writes and seeks leave the disk and the handle right. */
  ghost predicate Allowed(growth: Growth, c: Cursor, op: HandleOp) {
    && Sound(c) && c.size <= 0xFFFF_FFFF && c.at <= 0xFFFF_FFFF
    && match op
       case Read(_) => true
       case Write(data) => c.at + |data| <= 0xFFFF_FFFF && Fits(growth, c, |data|)
       case Seek(delta, origin) =>
         && -0x8000_0000 <= delta < 0x8000_0000
         && var target := Target(c.at, c.size, delta, origin);
            InRange(c, target) || Extends(growth, c, target)
  }

  /** One operation: the cursor after it and the bytes it delivers. */
  ghost function Moved(growth: Growth, c: Cursor, op: HandleOp): (Cursor, seq<byte>)
    requires Allowed(growth, c, op)
  {
    match op
    case Read(n) =>
      var m := if c.at >= c.size then 0 else Min(n, c.size - c.at);
      (c.(at := c.at + m), if m == 0 then [] else c.raw[c.at..c.at + m])
    case Write(data) => (Put(c, data), [])
    case Seek(delta, origin) =>
      var target := Target(c.at, c.size, delta, origin);
      if InRange(c, target) then (c.(at := target), [])
      else
        var d := Put(c.(at := c.size), Zeros(WholeBlocks(target) - c.size));
        (d.(at := if Refuses(c, target) then d.size else target), [])
  }

  /** How many blocks it claims at most. */
  function Claims(c: Cursor, op: HandleOp): nat {
    var own := |c.raw| / BLOCK_SIZE;
    match op
    case Read(_) => 0
    case Write(data) => Missing(own, c.at, |data|)
    case Seek(delta, origin) =>
      if c.at > 0xFFFF_FFFF || c.size > 0xFFFF_FFFF || delta < -0x8000_0000 || delta >= 0x8000_0000 then 0
      else
        var target := Target(c.at, c.size, delta, origin);
        if InRange(c, target) then 0 else FillClaims(own, c.size, target)
  }

  ghost predicate AllAllowed(growth: Growth, c: Cursor, ops: seq<HandleOp>)
    decreases |ops|
  {
    ops == [] || (Allowed(growth, c, ops[0]) && AllAllowed(growth, Moved(growth, c, ops[0]).0, ops[1..]))
  }

  ghost function MovedAll(growth: Growth, c: Cursor, ops: seq<HandleOp>): (Cursor, seq<byte>)
    requires AllAllowed(growth, c, ops)
    decreases |ops|
  {
    if ops == [] then (c, []) else
    var one := Moved(growth, c, ops[0]);
    var rest := MovedAll(growth, one.0, ops[1..]);
    (rest.0, one.1 + rest.1)
  }

  ghost function AllClaims(growth: Growth, c: Cursor, ops: seq<HandleOp>): nat
    requires AllAllowed(growth, c, ops)
    decreases |ops|
  {
    if ops == [] then 0 else Claims(c, ops[0]) + AllClaims(growth, Moved(growth, c, ops[0]).0, ops[1..])
  }

  // ----- what a write does to the bytes -----

  /** Inside the file a write is a splice of its contents. */
  lemma PutIsSplice(c: Cursor, data: seq<byte>)
    requires Sound(c) && c.at <= c.size
    ensures var (d, m) := (Put(c, data), Put(c, data).at - c.at);
            && 0 <= m <= |data| && d.size <= |d.raw|
            && d.raw[..d.size] == Splice(c.raw[..c.size], c.at, data[..m])
  {
    var d := Put(c, data);
    var m := d.at - c.at;
    var r := Splice(c.raw[..c.size], c.at, data[..m]);
    forall p | 0 <= p < d.size ensures d.raw[p] == r[p] {}
  }

  /** From a position behind the size, the gap comes to hold what the file's last block held there before, and zeros
      in a new block. */
  lemma PutBehindSize(c: Cursor, data: seq<byte>, p: nat)
    requires Sound(c) && c.size <= p < c.at && c.at < Put(c, data).at
    ensures p < Put(c, data).size <= |Put(c, data).raw|
    ensures Put(c, data).raw[p] == if p < |c.raw| then c.raw[p] else 0
  {
  }

  // ----- seeks -----

  /** A seek that stays on the file's blocks only sets the position. */
  lemma SeekInRange(growth: Growth, c: Cursor, delta: int, origin: Origin, to: nat)
    requires Sound(c) && c.size <= 0xFFFF_FFFF && c.at <= 0xFFFF_FFFF && -0x8000_0000 <= delta < 0x8000_0000
    requires to == Target(c.at, c.size, delta, origin) && InRange(c, to)
    ensures Allowed(growth, c, Seek(delta, origin))
    ensures Moved(growth, c, Seek(delta, origin)) == (c.(at := to), [])
  {
    hide Target, Put, Extends, WholeBlocks;
  }

  /** Two relative seeks are one by the sum. */
  lemma SeeksAdd(growth: Growth, c: Cursor, a: int, b: int)
    requires Sound(c) && c.size <= 0xFFFF_FFFF && c.at <= 0xFFFF_FFFF
    requires -0x8000_0000 <= a < 0x8000_0000 && -0x8000_0000 <= b < 0x8000_0000 && -0x8000_0000 <= a + b < 0x8000_0000
    requires 0 <= c.at + a <= 0xFFFF_FFFF && InRange(c, c.at + a)
    requires 0 <= c.at + a + b <= 0xFFFF_FFFF && InRange(c, c.at + a + b)
    ensures Allowed(growth, c, Seek(a, SeekCur)) && Allowed(growth, c, Seek(a + b, SeekCur))
    ensures var one := Moved(growth, c, Seek(a, SeekCur)).0;
            && one == c.(at := c.at + a) && Allowed(growth, one, Seek(b, SeekCur))
            && Moved(growth, one, Seek(b, SeekCur)) == Moved(growth, c, Seek(a + b, SeekCur))
                == (c.(at := c.at + a + b), [])
  {
    hide Target, Allowed, Moved;
    var d := c.(at := c.at + a);
    TargetIsSum(c.at, c.size, a, SeekCur);
    TargetIsSum(c.at, c.size, a + b, SeekCur);
    TargetIsSum(d.at, d.size, b, SeekCur);
    SeekInRange(growth, c, a, SeekCur, c.at + a);
    SeekInRange(growth, d, b, SeekCur, c.at + a + b);
    SeekInRange(growth, c, a + b, SeekCur, c.at + a + b);
  }

  /** Seeking back by as many bytes as a read delivered undoes the read. */
  lemma SeekUndoesRead(growth: Growth, c: Cursor, n: u32)
    requires Sound(c) && c.size <= 0xFFFF_FFFF && c.at <= 0xFFFF_FFFF && InRange(c, c.at)
    ensures Allowed(growth, c, Read(n))
    ensures var (d, bytes) := Moved(growth, c, Read(n));
            |bytes| <= 0x8000_0000 ==>
              Allowed(growth, d, Seek(-|bytes|, SeekCur)) && Moved(growth, d, Seek(-|bytes|, SeekCur)).0 == c
  {
    var m := if c.at >= c.size then 0 else Min(n, c.size - c.at);
    var d := c.(at := c.at + m);
    ReadMoves(growth, c, n, m);
    if m <= 0x8000_0000 {
      TargetIsSum(d.at, d.size, -m, SeekCur);
      SeekInRange(growth, d, -m, SeekCur, c.at);
    }
  }

  lemma ReadMoves(growth: Growth, c: Cursor, n: u32, m: nat)
    requires Allowed(growth, c, Read(n)) && m == if c.at >= c.size then 0 else Min(n, c.size - c.at)
    ensures Moved(growth, c, Read(n)).0 == c.(at := c.at + m) && |Moved(growth, c, Read(n)).1| == m
  {
  }

  /** An absolute seek goes where it says, and one from the end counts from the size. */
  lemma SeekFromEnds(growth: Growth, c: Cursor, delta: int)
    requires Sound(c) && c.size <= 0xFFFF_FFFF && c.at <= 0xFFFF_FFFF && 0 <= delta < 0x8000_0000 && delta <= c.size
    ensures Allowed(growth, c, Seek(delta, SeekSet)) && Moved(growth, c, Seek(delta, SeekSet)).0 == c.(at := delta)
    ensures Allowed(growth, c, Seek(-delta, SeekEnd))
    ensures Moved(growth, c, Seek(-delta, SeekEnd)).0 == c.(at := c.size - delta)
  {
    hide Target, Allowed, Moved;
    TargetIsSum(c.at, c.size, delta, SeekSet);
    TargetIsSum(c.at, c.size, -delta, SeekEnd);
    SeekInRange(growth, c, delta, SeekSet, delta);
    SeekInRange(growth, c, -delta, SeekEnd, c.size - delta);
  }

  // ----- the code -----

  ghost function Held(v: Vol, g: Shape, k: nat, at: nat): (c: Cursor)
    requires WellFormed(v, g) && k < SLOTS && Live(g, k)
    ensures Sound(c)
  {
    ChainInBlocks(v, g, k);
    SizeInChain(v, g, k);
    Cursor(Raw(v.blocks, g.chains[k]), v.dir[k].size, at, |FreeSet(v.table, v.total)|)
  }

  ghost function At(fs: FileSys, f: File): Cursor
    requires f.Open(fs)
    reads fs, f
  {
    Held(fs.Disk(), fs.shape, f.slot, f.offset)
  }

  /** A write that keeps the shape is Put, and changes no other file. */
  lemma WriteMoves(growth: Growth, v: Vol, g: Shape, k: nat, offset: nat, data: seq<byte>, n: nat, w: Vol, h: Shape)
    requires WriteOutcome(growth, v, g, k, offset, data, n, w, h) && k < |g.chains|
    requires offset / BLOCK_SIZE <= |g.chains[k]|
    ensures WellFormed(v, g) && Live(g, k) && k < SLOTS == |v.dir| == |g.chains| && v.total <= |v.table|
    ensures KeepsShape(growth, v, g, k, offset, |data|) <==> Fits(growth, Held(v, g, k, offset), |data|)
    ensures KeepsShape(growth, v, g, k, offset, |data|) ==>
              && WellFormed(w, h) && Live(h, k) && |w.dir| == |h.chains| == SLOTS
              && Held(w, h, k, offset + n) == Put(Held(v, g, k, offset), data)
              && SameElsewhere(v, g, w, h, k) && w.dir[k].name == v.dir[k].name
              && Files(w, h) == Files(v, g)[v.dir[k].name := Contents(w, h, k)]
  {
    hide Files, SameElsewhere, Links, Directory, Broken, RawAfter, Raw, Contents;
    OutcomeMeans(growth, v, g, k, offset, data, n, w, h);
    SizeInChain(v, g, k);
    assert FreeSet(v.table, v.total) == {} <==> |FreeSet(v.table, v.total)| == 0;
    if KeepsShape(growth, v, g, k, offset, |data|) {
      SizeInChain(w, h, k);
      FreeMoves(v, g, w, h, k);
      ChainInBlocks(v, g, k);
      ChainInBlocks(w, h, k);
      BlocksAgree(|g.chains[k]|, v.dir[k].size, offset, n);
      assert |Held(v, g, k, offset).raw| / BLOCK_SIZE == |g.chains[k]|;
    }
  }

  lemma BlocksAgree(own: nat, size: nat, offset: nat, n: nat)
    requires own == BlocksFor(size) && (n == 0 ==> offset <= BLOCK_SIZE * own)
    ensures BlocksFor(Max(size, offset + n)) == if n == 0 then own else Max(own, BlocksFor(offset + n))
  {
  }

  /** w differs from v in the file of slot k only. */
  ghost predicate OnlyFile(v: Vol, g: Shape, k: nat, w: Vol, h: Shape) {
    && WellFormed(v, g) && WellFormed(w, h) && k < SLOTS && Live(g, k) && Live(h, k)
    && SameElsewhere(v, g, w, h, k) && w.dir[k].name == v.dir[k].name
    && Files(w, h) == Files(v, g)[v.dir[k].name := Contents(w, h, k)]
  }

  lemma OnlyFileItself(v: Vol, g: Shape, k: nat)
    requires WellFormed(v, g) && k < SLOTS && Live(g, k)
    ensures OnlyFile(v, g, k, v, g)
  {
    hide Links, Directory, Files, Contents, SameElsewhere;
    SameAsItself(v, g, k);
    FilesAt(v, g, k);
  }

  lemma OnlyFileTwice(v: Vol, g: Shape, k: nat, w: Vol, h: Shape, x: Vol, j: Shape)
    requires OnlyFile(v, g, k, w, h) && OnlyFile(w, h, k, x, j)
    ensures OnlyFile(v, g, k, x, j)
  {
    hide Links, Directory, Files, Contents, SameElsewhere;
    SlotsMatch(v, g);
    SlotsMatch(w, h);
    SlotsMatch(x, j);
    SameElsewhereTwice(v, g, w, h, x, j, k);
  }

  lemma PositionBound(v: Vol, g: Shape, k: nat, offset: nat)
    requires WellFormed(v, g) && k < SLOTS && Live(g, k)
    ensures |v.dir| == |g.chains| == SLOTS && v.total <= |v.table|
    ensures offset / BLOCK_SIZE <= v.dir[k].size / BLOCK_SIZE ==> offset / BLOCK_SIZE <= |g.chains[k]|
  {
    SizeInChain(v, g, k);
    CoreFacts(v, g);
    LinksBound(v.table, v.total, g);
  }

  /** The seeks that leave a right handle, said of the disk and of the cursor. */
  lemma ExtendsKeepsHandle(growth: Growth, v: Vol, g: Shape, k: nat, at: nat, target: nat)
    requires WellFormed(v, g) && k < SLOTS && Live(g, k)
    ensures |v.dir| == |g.chains| == SLOTS && v.total <= |v.table|
    ensures Refuses(Held(v, g, k, at), target) <==> Refused(v, g, k, target)
    ensures Extends(growth, Held(v, g, k, at), target) <==>
              WholeBlocks(target) <= 0xFFFF_FFFF && SeekKeepsHandle(growth, v, g, k, target)
  {
    hide WholeBlocks, Raw;
    PositionBound(v, g, k, 0);
    assert FreeSet(v.table, v.total) == {} <==> |FreeSet(v.table, v.total)| == 0;
  }

  /** A write is a step of the cursor, and leaves disk and handle right, exactly when it fits. */
  method ApplyWrite(fs: FileSys, f: File, data: seq<byte>, growth: Growth)
    requires f.Open(fs) && f.offset + |data| <= 0xFFFF_FFFF && fs.Roomy(Claims(At(fs, f), Write(data)))
    modifies fs, f
    ensures fs.room >= old(fs.room - Claims(At(fs, f), Write(data)))
    ensures f.slot == old(f.slot) && (f.Open(fs) <==> Fits(growth, old(At(fs, f)), |data|))
    ensures f.Open(fs) ==>
              At(fs, f) == Put(old(At(fs, f)), data)
                  && OnlyFile(old(fs.Disk()), old(fs.shape), f.slot, fs.Disk(), fs.shape)
  {
    hide WellFormed, Placed, WriteOutcome, KeepsShape, Fits, Put, Files, Contents, SameElsewhere, Raw, Missing, Sealed;
    ghost var v, g, k, at := fs.Disk(), fs.shape, f.slot, f.offset;
    PositionBound(v, g, k, at);
    var n := FileWrite(fs, f, data, growth);
    WriteMoves(growth, v, g, k, at, data, n, fs.Disk(), fs.shape);
  }

  /** A seek, as one step of the cursor; it leaves disk and handle right exactly when it stays in range or extends
      rightly. */
  method ApplySeek(fs: FileSys, f: File, delta: int, origin: Origin, growth: Growth) returns (r: int)
    requires f.Open(fs) && -0x8000_0000 <= delta < 0x8000_0000
    requires !InRange(At(fs, f), Target(f.offset, f.size, delta, origin)) ==>
               WholeBlocks(Target(f.offset, f.size, delta, origin)) <= 0xFFFF_FFFF
    requires fs.Roomy(Claims(At(fs, f), Seek(delta, origin)))
    modifies fs, f
    ensures fs.room >= old(fs.room - Claims(At(fs, f), Seek(delta, origin)))
    ensures var (c, target) := (old(At(fs, f)), old(Target(f.offset, f.size, delta, origin)));
            r == if !InRange(c, target) && Refuses(c, target) then -1 else 0
    ensures f.slot == old(f.slot) && (f.Open(fs) <==> old(Allowed(growth, At(fs, f), Seek(delta, origin))))
    ensures f.Open(fs) ==>
              && At(fs, f) == Moved(growth, old(At(fs, f)), Seek(delta, origin)).0
              && OnlyFile(old(fs.Disk()), old(fs.shape), f.slot, fs.Disk(), fs.shape)
  {
    hide WellFormed, Placed, WriteOutcome, KeepsShape, SeekKeepsHandle, Extends, Fits, Put, Files, Contents,
      SameElsewhere, Raw, Target, WholeBlocks, Zeros, Reach, Refused, Refuses, FillClaims, Sealed;
    ghost var v, g, k, size := fs.Disk(), fs.shape, f.slot, f.size;
    ghost var target := Target(f.offset, f.size, delta, origin);
    PositionBound(v, g, k, size);
    OnlyFileItself(v, g, k);
    ExtendsKeepsHandle(growth, v, g, k, f.offset, target);
    r := FileSeekAnywhere(fs, f, delta, origin, growth);
    if target / BLOCK_SIZE > size / BLOCK_SIZE {
      var zeros := Zeros(WholeBlocks(target) - size);
      WriteMoves(growth, v, g, k, size, zeros, f.size - size, fs.Disk(), fs.shape);
      OutcomeMeans(growth, v, g, k, size, zeros, f.size - size, fs.Disk(), fs.shape);
    }
  }

  lemma BoundedSeek(growth: Growth, c: Cursor, delta: int, origin: Origin)
    requires Allowed(growth, c, Seek(delta, origin))
    ensures -0x8000_0000 <= delta < 0x8000_0000 && c.at <= 0xFFFF_FFFF && c.size <= 0xFFFF_FFFF
    ensures InRange(c, Target(c.at, c.size, delta, origin)) || Extends(growth, c, Target(c.at, c.size, delta, origin))
    ensures !InRange(c, Target(c.at, c.size, delta, origin)) ==>
              WholeBlocks(Target(c.at, c.size, delta, origin)) <= 0xFFFF_FFFF
  {
  }

  /** A read, as one step of the cursor. */
  method ApplyRead(fs: FileSys, f: File, n: u32) returns (out: seq<byte>)
    requires f.Open(fs)
    modifies f
    ensures f.Open(fs) && f.slot == old(f.slot)
    ensures var c := old(At(fs, f));
            var m := if c.at >= c.size then 0 else Min(n, c.size - c.at);
            At(fs, f) == c.(at := c.at + m) && out == if m == 0 then [] else c.raw[c.at..c.at + m]
  {
    hide WellFormed, Placed, Overwritten, Raw, Contents;
    ghost var bytes := f.Bytes(fs);
    BytesOfRaw(fs.Disk(), fs.shape, f.slot, f.offset);
    var buf := new byte[n];
    ghost var was := buf[..];
    var m := FileRead(fs, f, buf, n);
    if m > 0 { ChunkIsPrefix(was, bytes, old(f.offset), m, buf[..]); }
    out := buf[..m];
    ghost var c := old(At(fs, f));
    if m > 0 { SliceOfSlice(c.raw, 0, c.size, old(f.offset), m); }
  }

  lemma BytesOfRaw(v: Vol, g: Shape, k: nat, at: nat)
    requires WellFormed(v, g) && k < SLOTS && Live(g, k)
    ensures |v.dir| == SLOTS
    ensures var c := Held(v, g, k, at); c.size == v.dir[k].size && Contents(v, g, k) == c.raw[0..c.size]
  {
    ChainInBlocks(v, g, k);
    SizeInChain(v, g, k);
  }

  /** One operation on the handle is one step of the cursor; the disk differs in that file only. */
  method ApplyToHandle(fs: FileSys, f: File, op: HandleOp, growth: Growth) returns (out: seq<byte>)
    requires f.Open(fs) && Allowed(growth, At(fs, f), op) && fs.Roomy(Claims(At(fs, f), op))
    modifies fs, f
    ensures fs.room >= old(fs.room - Claims(At(fs, f), op))
    ensures f.Open(fs) && f.slot == old(f.slot) && (At(fs, f), out) == Moved(growth, old(At(fs, f)), op)
    ensures OnlyFile(old(fs.Disk()), old(fs.shape), f.slot, fs.Disk(), fs.shape)
  {
    hide WellFormed, Placed, OnlyFile, Put, Raw, Claims, Sealed;
    out := [];
    match op
    case Read(n) =>
      OnlyFileItself(fs.Disk(), fs.shape, f.slot);
      out := ApplyRead(fs, f, n);
    case Write(data) =>
      ApplyWrite(fs, f, data, growth);
    case Seek(delta, origin) =>
      BoundedSeek(growth, At(fs, f), delta, origin);
      var r := ApplySeek(fs, f, delta, origin, growth);
  }

  /** Every run of a handle is the run of the cursor: the bytes read, the final contents and position; the handle stays
      right throughout, and every other file as it was. */
  method RunHandle(fs: FileSys, f: File, ops: seq<HandleOp>, growth: Growth) returns (out: seq<byte>)
    requires f.Open(fs) && AllAllowed(growth, At(fs, f), ops) && fs.Roomy(AllClaims(growth, At(fs, f), ops))
    modifies fs, f
    ensures fs.room >= old(fs.room - AllClaims(growth, At(fs, f), ops))
    ensures f.Open(fs) && f.slot == old(f.slot) && (At(fs, f), out) == MovedAll(growth, old(At(fs, f)), ops)
    ensures OnlyFile(old(fs.Disk()), old(fs.shape), f.slot, fs.Disk(), fs.shape)
    decreases ops
  {
    hide WellFormed, Placed, OnlyFile, Moved, Allowed, Held, Claims, Sealed;
    ghost var v, g, k := fs.Disk(), fs.shape, f.slot;
    if ops == [] {
      OnlyFileItself(v, g, k);
      out := [];
    } else {
      var one := ApplyToHandle(fs, f, ops[0], growth);
      ghost var w, h := fs.Disk(), fs.shape;
      var rest := RunHandle(fs, f, ops[1..], growth);
      OnlyFileTwice(v, g, k, w, h, fs.Disk(), fs.shape);
      out := one + rest;
    }
  }
}
