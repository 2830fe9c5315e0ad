/** What a partly finished write has done to a volume, and how one more chunk extends it. */
module WriteProgress {
  import opened Types
  import opened Volume
  import opened VolumeFacts
  import opened FileSystem

  /** The predecessor that file_write hands to the allocator when it grows a file.  The code passes
      curr_block_index, which is FS_LAST_BLOCK at that moment; prev_block_index is kept for this
      link everywhere else. */
  datatype Growth = FromCurrent | FromPrevious

  /** A position cached in a handle: the block that holds `offset` (FS_LAST_BLOCK one past the
      chain) and the block before it (the first block itself at index 0). */
  ghost predicate Placed(c: seq<u32>, offset: nat, current: u32, previous: u32) {
    var b := offset / BLOCK_SIZE;
    && c != [] && b <= |c|
    && current == (if b < |c| then c[b] else LAST_BLOCK)
    && previous == (if b == 0 then c[0] else c[b - 1])
  }

  /** Moving on by n bytes inside one block: the cached position follows, stepping to the next link
      exactly at the block's end. */
  lemma PlacedMoves(c: seq<u32>, offset: nat, current: u32, previous: u32, n: nat)
    requires Placed(c, offset, current, previous) && offset / BLOCK_SIZE < |c|
    requires 0 < n <= BLOCK_SIZE - offset % BLOCK_SIZE
    ensures var b := offset / BLOCK_SIZE;
            if (offset + n) % BLOCK_SIZE == 0 then Placed(c, offset + n, Next(c, b), current)
            else Placed(c, offset + n, current, previous)
  {
    if offset % BLOCK_SIZE + n == BLOCK_SIZE {
      assert (offset + n) / BLOCK_SIZE == offset / BLOCK_SIZE + 1;
    } else {
      assert (offset + n) / BLOCK_SIZE == offset / BLOCK_SIZE;
    }
  }

  /** Byte p once data has been written at offset over raw: what neither covers is zero. */
  function ByteAfter(raw: seq<byte>, offset: nat, data: seq<byte>, p: nat): byte {
    if offset <= p < offset + |data| then data[p - offset] else if p < |raw| then raw[p] else 0
  }

  /** r holds data at offset and the bytes of raw elsewhere; behind both it may hold anything. */
  ghost predicate Overlaid(raw: seq<byte>, offset: nat, data: seq<byte>, r: seq<byte>) {
    && |raw| <= |r| && (data == [] || offset + |data| <= |r|)
    && forall p :: 0 <= p < |r| && (p < |raw| || offset <= p < offset + |data|) ==>
        r[p] == ByteAfter(raw, offset, data, p)
  }

  ghost predicate ZerosElsewhere(raw: seq<byte>, offset: nat, data: seq<byte>, r: seq<byte>) {
    forall p :: |raw| <= p < |r| && !(offset <= p < offset + |data|) ==> r[p] == 0
  }

  /** A write to the file of slot k, as it began. */
  datatype Job = Job(v: Vol, g: Shape, k: nat, offset: nat)

  ghost function Chain(j: Job): seq<u32>
    requires j.k < |j.g.chains|
  {
    j.g.chains[j.k]
  }

  /** v was reached by writing `data`, while the file's size may be in flux. */
  ghost predicate Progress(j: Job, data: seq<byte>, v: Vol, g: Shape) {
    && Core(j.v, j.g) && Core(v, g) && j.k < SLOTS && Live(j.g, j.k)
    && v.dir[j.k].name == j.v.dir[j.k].name && v.total == j.v.total && |v.table| == |j.v.table|
    && Chain(j) <= g.chains[j.k]
    && SameElsewhere(j.v, j.g, v, g, j.k)
    && |FreeSet(v.table, v.total)| + |g.chains[j.k]| == |FreeSet(j.v.table, v.total)| + |Chain(j)|
    && InBlocks(Chain(j), |j.v.blocks|) && InBlocks(g.chains[j.k], |v.blocks|)
    && Overlaid(Raw(j.v.blocks, Chain(j)), j.offset, data, Raw(v.blocks, g.chains[j.k]))
  }

  lemma ProgressStart(j: Job)
    requires Core(j.v, j.g) && j.k < SLOTS && Live(j.g, j.k)
    ensures Progress(j, [], j.v, j.g)
  {
    forall a: nat | a < SLOTS ensures InBlocks(j.g.chains[a], |j.v.blocks|) && SameFile(j.v, j.g, j.v, j.g, a) {
      ChainInBlocks(j.v, j.g, a);
    }
  }

  /** Growing a chain by a claimed block keeps links, directory and every other file. */
  lemma GrowKeepsCore(v: Vol, g: Shape, k: nat, e: u32)
    requires Core(v, g) && k < SLOTS && Live(g, k) && 0 < e < v.total && v.table[e] == FREE_BLOCK
    ensures g.chains[k][|g.chains[k]| - 1] < |v.table|
    ensures Core(v.(table := Claimed(v.table, e, g.chains[k][|g.chains[k]| - 1])), Append(g, k, e))
    ensures var t' := Claimed(v.table, e, g.chains[k][|g.chains[k]| - 1]);
            FreeSet(t', v.total) == FreeSet(v.table, v.total) - {e}
  {
    var c, h := g.chains[k], Append(g, k, e);
    AppendKeepsLinks(v.table, v.total, g, k, e);
    assert InPlace(v.table, v.total, g, k, |c| - 1);
    forall a: nat | a < SLOTS ensures SlotOk(v.dir, h, a) { assert SlotOk(v.dir, g, a); }
  }

  /** Linking a claimed block behind the chain loses nothing that was written. */
  lemma ProgressGrow(j: Job, data: seq<byte>, v: Vol, g: Shape, e: u32, w: Vol)
    requires Progress(j, data, v, g) && 0 < e < v.total && v.table[e] == FREE_BLOCK
    requires g.chains[j.k][|g.chains[j.k]| - 1] < |v.table|
    requires w == v.(table := Claimed(v.table, e, g.chains[j.k][|g.chains[j.k]| - 1]))
    ensures Progress(j, data, w, Append(g, j.k, e))
  {
    var c, h := g.chains[j.k], Append(g, j.k, e);
    GrowKeepsCore(v, g, j.k, e);
    assert |FreeSet(w.table, w.total)| == |FreeSet(v.table, v.total)| - 1;
    forall a: nat | a < SLOTS && a != j.k ensures SameFile(j.v, j.g, w, h, a) { assert SameFile(j.v, j.g, v, g, a); }
    RawExtends(v.blocks, c, e);
  }

  lemma RawExtends(blocks: seq<Block>, c: seq<u32>, e: u32)
    requires InBlocks(c, |blocks|) && e < |blocks|
    ensures InBlocks(c + [e], |blocks|) && Raw(blocks, c) <= Raw(blocks, c + [e])
  {
    var r, r' := Raw(blocks, c), Raw(blocks, c + [e]);
    forall p | 0 <= p < |r| ensures r'[p] == r[p] {
      assert r[p] == ByteAt(blocks, c, p) && r'[p] == ByteAt(blocks, c + [e], p);
    }
  }

  lemma RawRewritten(blocks: seq<Block>, c: seq<u32>, b: nat, nb: Block)
    requires InBlocks(c, |blocks|) && b < |c| && forall i :: 0 <= i < |c| && i != b ==> c[i] != c[b]
    ensures InBlocks(c, |blocks[c[b] := nb]|)
    ensures var r, r' := Raw(blocks, c), Raw(blocks[c[b] := nb], c);
            forall p :: 0 <= p < |r| ==> r'[p] == if p / BLOCK_SIZE == b then nb[p % BLOCK_SIZE] else r[p]
  {
    var r, r' := Raw(blocks, c), Raw(blocks[c[b] := nb], c);
    forall p | 0 <= p < |r| ensures r'[p] == if p / BLOCK_SIZE == b then nb[p % BLOCK_SIZE] else r[p] {
      assert r'[p] == ByteAt(blocks[c[b] := nb], c, p) && r[p] == ByteAt(blocks, c, p);
    }
  }

  lemma RawBlock(blocks: seq<Block>, c: seq<u32>, b: nat)
    requires InBlocks(c, |blocks|) && b < |c|
    ensures Raw(blocks, c)[BLOCK_SIZE * b..BLOCK_SIZE * (b + 1)] == blocks[c[b]]
  {
    var r := Raw(blocks, c);
    forall q | BLOCK_SIZE * b <= q < BLOCK_SIZE * (b + 1) ensures r[q] == blocks[c[b]][q - BLOCK_SIZE * b] {
      assert r[q] == ByteAt(blocks, c, q);
    }
  }

  lemma RewriteElsewhere(v0: Vol, g0: Shape, v: Vol, g: Shape, k: nat, b: nat, nb: Block)
    requires |v0.dir| == |g0.chains| == SLOTS && Core(v, g) && k < SLOTS && b < |g.chains[k]|
    requires SameElsewhere(v0, g0, v, g, k)
    ensures g.chains[k][b] < |v.blocks|
    ensures SameElsewhere(v0, g0, v.(blocks := v.blocks[g.chains[k][b] := nb]), g, k)
    ensures forall i :: 0 <= i < |g.chains[k]| && i != b ==> g.chains[k][i] != g.chains[k][b]
  {
    assert InPlace(v.table, v.total, g, k, b);
    var e := g.chains[k][b];
    var w := v.(blocks := v.blocks[e := nb]);
    forall a: nat | a < SLOTS && a != k ensures SameFile(v0, g0, w, g, a) {
      assert SameFile(v0, g0, v, g, a);
      forall i | 0 <= i < |g.chains[a]| ensures g.chains[a][i] != e { assert InPlace(v.table, v.total, g, a, i); }
    }
    forall i | 0 <= i < |g.chains[k]| && i != b
      ensures g.chains[k][i] != e { assert InPlace(v.table, v.total, g, k, i); }
  }

  function ZeroBlock(): (b: Block)
    ensures forall q :: 0 <= q < BLOCK_SIZE ==> b[q] == 0
  {
    seq(BLOCK_SIZE, _ => 0)
  }

  /** nb holds chunk at position o and the bytes of `base` around it. */
  ghost predicate PatchedBlock(base: Block, o: nat, chunk: seq<byte>, nb: Block) {
    && o + |chunk| <= BLOCK_SIZE
    && forall q :: 0 <= q < BLOCK_SIZE ==> nb[q] == if o <= q < o + |chunk| then chunk[q - o] else base[q]
  }

  /** Block b of a chain is rewritten: it held `base`, or counts as that, and holds nb with the chunk in it. */
  datatype Rewrite = Rewrite(b: nat, base: Block, chunk: seq<byte>, nb: Block)

  /** It takes the write one chunk further. */
  ghost predicate Continues(p: Rewrite, offset: nat, data: seq<byte>) {
    p.b == (offset + |data|) / BLOCK_SIZE && PatchedBlock(p.base, (offset + |data|) % BLOCK_SIZE, p.chunk, p.nb)
  }

  /** Rewriting part of a block extends the written range; what a block that only now comes into use holds around the
      data is free. */
  lemma ProgressWrite(j: Job, data: seq<byte>, v: Vol, g: Shape, p: Rewrite, w: Vol)
    requires Progress(j, data, v, g) && p.b < |g.chains[j.k]| && g.chains[j.k][p.b] < |v.blocks|
    requires Continues(p, j.offset, data)
    requires p.b < |Chain(j)| || (data != [] && (j.offset + |data|) % BLOCK_SIZE != 0) ==>
               p.base == v.blocks[g.chains[j.k][p.b]]
    requires w == v.(blocks := v.blocks[g.chains[j.k][p.b] := p.nb])
    ensures Progress(j, data + p.chunk, w, g)
  {
    var c := g.chains[j.k];
    RewriteElsewhere(j.v, j.g, v, g, j.k, p.b, p.nb);
    RawRewritten(v.blocks, c, p.b, p.nb);
    var r := Raw(v.blocks, c);
    RawBlock(v.blocks, c, p.b);
    WrittenRange(Raw(j.v.blocks, Chain(j)), j.offset, data, r, p, Raw(w.blocks, c));
  }

  lemma WrittenRange(raw: seq<byte>, offset: nat, data: seq<byte>, r: seq<byte>, p: Rewrite, r': seq<byte>)
    requires Overlaid(raw, offset, data, r) && |r'| == |r| && BLOCK_SIZE * (p.b + 1) <= |r| && |raw| % BLOCK_SIZE == 0
    requires Continues(p, offset, data)
    requires forall q :: 0 <= q < |r| ==> r'[q] == if q / BLOCK_SIZE == p.b then p.nb[q % BLOCK_SIZE] else r[q]
    requires BLOCK_SIZE * p.b < |raw| || (data != [] && (offset + |data|) % BLOCK_SIZE != 0) ==>
               p.base == r[BLOCK_SIZE * p.b..BLOCK_SIZE * (p.b + 1)]
    ensures Overlaid(raw, offset, data + p.chunk, r')
  {
    var at, o := offset + |data|, (offset + |data|) % BLOCK_SIZE;
    forall q | 0 <= q < |r| && (q < |raw| || offset <= q < at + |p.chunk|)
      ensures r'[q] == ByteAfter(raw, offset, data + p.chunk, q)
    {
      if q / BLOCK_SIZE == p.b {
        assert q == BLOCK_SIZE * p.b + q % BLOCK_SIZE && at == BLOCK_SIZE * p.b + o;
        assert (offset <= q < at) || q < |raw| ==> p.base[q % BLOCK_SIZE] == r[q];
      }
    }
  }

  /** The same for the zeros behind: a block that comes into use was zero but for the data. */
  lemma ZerosWritten(raw: seq<byte>, offset: nat, data: seq<byte>, r: seq<byte>, p: Rewrite, r': seq<byte>)
    requires Overlaid(raw, offset, data, r) && ZerosElsewhere(raw, offset, data, r)
    requires |raw| % BLOCK_SIZE == 0 && |r| % BLOCK_SIZE == 0
    requires Continues(p, offset, data) && BLOCK_SIZE * p.b <= |r| && |r'| == Max(|r|, BLOCK_SIZE * (p.b + 1))
    requires forall q :: 0 <= q < |r'| ==>
               r'[q] == if q / BLOCK_SIZE == p.b then p.nb[q % BLOCK_SIZE] else if q < |r| then r[q] else 0
    requires p.base == if BLOCK_SIZE * p.b < |r| then r[BLOCK_SIZE * p.b..BLOCK_SIZE * (p.b + 1)] else ZeroBlock()
    ensures ZerosElsewhere(raw, offset, data + p.chunk, r')
  {
    var at, o := offset + |data|, (offset + |data|) % BLOCK_SIZE;
    forall q | |raw| <= q < |r'| && !(offset <= q < at + |p.chunk|)
      ensures r'[q] == 0
    {
      if q / BLOCK_SIZE == p.b {
        assert q == BLOCK_SIZE * p.b + q % BLOCK_SIZE && at == BLOCK_SIZE * p.b + o;
        assert p.nb[q % BLOCK_SIZE] == p.base[q % BLOCK_SIZE];
        assert BLOCK_SIZE * p.b < |r| ==> p.base[q % BLOCK_SIZE] == r[q];
      }
    }
  }

  // ----- the loop of a write, round by round -----

  /** Where a write stands: the volume, its shape, the blocks that hold the file and what was added to it, and the
      cached position.  Strayed means that no link leads to the last of these blocks. */
  datatype Stand = Stand(v: Vol, g: Shape, c: seq<u32>, current: u32, previous: u32, strayed: bool)

  /** Blocks that are not in c hold what they held. */
  ghost predicate KeptOutside(before: seq<Block>, blocks: seq<Block>, c: seq<u32>) {
    |blocks| == |before| && forall e :: 0 <= e < |blocks| && e !in c ==> blocks[e] == before[e]
  }

  lemma StillKept(before: seq<Block>, blocks: seq<Block>, c: seq<u32>, e: u32, nb: Block, c': seq<u32>)
    requires KeptOutside(before, blocks, c) && e < |blocks| && ((c' == c && e in c) || c' == c + [e])
    ensures KeptOutside(before, blocks[e := nb], c')
  {
    assert forall x :: x in c ==> x in c';
    assert c' == c + [e] ==> c'[|c|] == e;
  }

  /** The write of `data` has kept to the file's chain. */
  ghost predicate InFlight(j: Job, data: seq<byte>, s: Stand) {
    && Progress(j, data, s.v, s.g) && s.c == s.g.chains[j.k] && KeptOutside(j.v.blocks, s.v.blocks, s.c)
    && ZerosElsewhere(Raw(j.v.blocks, Chain(j)), j.offset, data, Raw(s.v.blocks, s.c))
    && Placed(s.c, j.offset + |data|, s.current, s.previous)
    && |s.c| == Max(|Chain(j)|, if data == [] then 0 else BlocksFor(j.offset + |data|))
  }

  /** What a round of the loop needs to know about a chain that a position is cached in. */
  ghost predicate Walkable(t: seq<u32>, total: nat, c: seq<u32>, offset: nat, current: u32, previous: u32) {
    && 0 < total <= |t| < LAST_BLOCK && t[0] != FREE_BLOCK && (forall e :: total <= e < |t| ==> t[e] != FREE_BLOCK)
    && Placed(c, offset, current, previous)
    && (offset / BLOCK_SIZE < |c| ==> 0 < current < total && t[current] == Next(c, offset / BLOCK_SIZE))
    && previous < total && t[previous] != FREE_BLOCK
  }

  lemma ChainWalkable(t: seq<u32>, total: nat, g: Shape, k: nat, offset: nat, current: u32, previous: u32)
    requires Links(t, total, g) && k < SLOTS && Placed(g.chains[k], offset, current, previous)
    ensures Walkable(t, total, g.chains[k], offset, current, previous)
  {
    var b := offset / BLOCK_SIZE;
    assert InPlace(t, total, g, k, if b == 0 then 0 else b - 1);
    assert b < |g.chains[k]| ==> InPlace(t, total, g, k, b);
  }

  lemma ProgressFacts(j: Job, data: seq<byte>, v: Vol, g: Shape)
    requires Progress(j, data, v, g)
    ensures Core(v, g) && Links(v.table, v.total, g) && j.k < SLOTS == |v.dir| == |g.chains| && |v.blocks| == v.total
    ensures SLOTS == |j.v.dir| == |j.g.chains| && Chain(j) <= g.chains[j.k] && Chain(j) != []
    ensures InBlocks(Chain(j), |j.v.blocks|) && InBlocks(g.chains[j.k], |v.blocks|)
    ensures SameElsewhere(j.v, j.g, v, g, j.k)
    ensures Overlaid(Raw(j.v.blocks, Chain(j)), j.offset, data, Raw(v.blocks, g.chains[j.k]))
    ensures |FreeSet(v.table, v.total)| + |g.chains[j.k]| == |FreeSet(j.v.table, v.total)| + |Chain(j)|
    ensures v.total == j.v.total
  {
    hide Links, Directory, Overlaid, SameElsewhere;
    CoreFacts(v, g);
    CoreFacts(j.v, j.g);
  }

  lemma CoreFacts(v: Vol, g: Shape)
    requires Core(v, g)
    ensures Links(v.table, v.total, g) && |v.dir| == |g.chains| == SLOTS && |v.blocks| == v.total
  {
  }

  /** A chunk that ends in block m makes a file of m + 1 blocks. */
  lemma BlocksAfter(at: nat, n: nat)
    requires 0 < n <= BLOCK_SIZE - at % BLOCK_SIZE
    ensures BlocksFor(at + n) == at / BLOCK_SIZE + 1 && BlocksFor(at) <= at / BLOCK_SIZE + 1
  {
  }

  lemma BlocksEnd(at: nat)
    requires BlocksFor(at) <= at / BLOCK_SIZE
    ensures at % BLOCK_SIZE == 0
  {
  }

  lemma InFlightWalkable(j: Job, data: seq<byte>, s: Stand)
    requires InFlight(j, data, s)
    ensures Walkable(s.v.table, s.v.total, s.c, j.offset + |data|, s.current, s.previous)
    ensures |s.v.blocks| == s.v.total && InBlocks(s.c, |s.v.blocks|)
  {
    hide Progress, Links, Directory, Walkable, Placed;
    ProgressFacts(j, data, s.v, s.g);
    ChainWalkable(s.v.table, s.v.total, s.g, j.k, j.offset + |data|, s.current, s.previous);
  }

  /** The predecessor that the code passes to the allocator. */
  function Link(growth: Growth, s: Stand): u32 {
    if growth.FromCurrent? then LAST_BLOCK else s.previous
  }

  /** What a new block starts from, and what the block e holds otherwise. */
  function Base(s: Stand, grows: bool, e: u32): Block
    requires !grows ==> e < |s.v.blocks|
  {
    if grows then ZeroBlock() else s.v.blocks[e]
  }

  /** What one round of the loop does, whatever the chain's state: behind the end of c it claims e, linked to
      the predecessor that the code passes, and starts from zeros; it rewrites one block and moves on. */
  ghost predicate ChunkDone(growth: Growth, s: Stand, at: nat, chunk: seq<byte>, e: u32, nb: Block, s': Stand) {
    && 0 < |chunk| && 0 < e < |s.v.blocks| && e < |s.v.table|
    && (Link(growth, s) == LAST_BLOCK || Link(growth, s) < |s.v.table|)
    && PatchedBlock(Base(s, at / BLOCK_SIZE == |s.c|, e), at % BLOCK_SIZE, chunk, nb)
    && s'.v.total == s.v.total && s'.v.dir == s.v.dir && s'.v.blocks == s.v.blocks[e := nb]
    && (if at / BLOCK_SIZE == |s.c| then
          s.v.table[e] == FREE_BLOCK && s'.v.table == Claimed(s.v.table, e, Link(growth, s)) && s'.c == s.c + [e]
        else e == s.current && s'.v.table == s.v.table && s'.c == s.c)
    && Placed(s'.c, at + |chunk|, s'.current, s'.previous)
  }

  lemma MaxIs(a: int, b: int)
    ensures Max(a, b) == if a < b then b else a
  {
  }

  lemma PatchFits(base: Block, o: nat, chunk: seq<byte>, nb: Block)
    requires PatchedBlock(base, o, chunk, nb)
    ensures o + |chunk| <= BLOCK_SIZE
  {
  }

  /** A round that stays inside the chain. */
  lemma RoundInside(growth: Growth, j: Job, data: seq<byte>, s: Stand, chunk: seq<byte>, e: u32, nb: Block, s': Stand)
    requires InFlight(j, data, s) && (j.offset + |data|) / BLOCK_SIZE < |s.c|
    requires ChunkDone(growth, s, j.offset + |data|, chunk, e, nb, s') && s'.g == s.g
    ensures InFlight(j, data + chunk, s')
  {
    hide Progress, Core, SameElsewhere, PatchedBlock, Overlaid, ZerosElsewhere, Raw, Max, BlocksFor, KeptOutside;
    var b := (j.offset + |data|) / BLOCK_SIZE;
    ProgressFacts(j, data, s.v, s.g);
    assert s.c[b] == e;
    StillKept(j.v.blocks, s.v.blocks, s.c, e, nb, s.c);
    MaxIs(|Chain(j)|, if data == [] then 0 else BlocksFor(j.offset + |data|));
    MaxIs(|Chain(j)|, BlocksFor(j.offset + |data + chunk|));
    PatchFits(s.v.blocks[e], (j.offset + |data|) % BLOCK_SIZE, chunk, nb);
    BlocksAfter(j.offset + |data|, |chunk|);
    ProgressWrite(j, data, s.v, s.g, Rewrite(b, s.v.blocks[e], chunk, nb), s'.v);
    InsideZeros(growth, j, data, s, chunk, e, nb, s');
    ProgressFacts(j, data + chunk, s'.v, s'.g);
  }

  lemma InsideZeros(growth: Growth, j: Job, data: seq<byte>, s: Stand, chunk: seq<byte>, e: u32, nb: Block, s': Stand)
    requires InFlight(j, data, s) && (j.offset + |data|) / BLOCK_SIZE < |s.c|
    requires ChunkDone(growth, s, j.offset + |data|, chunk, e, nb, s')
    ensures InBlocks(Chain(j), |j.v.blocks|) && InBlocks(s.c, |s'.v.blocks|)
    ensures ZerosElsewhere(Raw(j.v.blocks, Chain(j)), j.offset, data + chunk, Raw(s'.v.blocks, s.c))
  {
    hide Progress, Core, SameElsewhere, Overlaid, ZerosElsewhere, PatchedBlock, Raw;
    var b := (j.offset + |data|) / BLOCK_SIZE;
    ProgressFacts(j, data, s.v, s.g);
    RewriteElsewhere(j.v, j.g, s.v, s.g, j.k, b, nb);
    ZerosInside(Raw(j.v.blocks, Chain(j)), j.offset, data, s.v.blocks, s.c,
                Rewrite(b, s.v.blocks[s.c[b]], chunk, nb));
  }

  lemma ZerosInside(raw: seq<byte>, offset: nat, data: seq<byte>, blocks: seq<Block>, c: seq<u32>, p: Rewrite)
    requires InBlocks(c, |blocks|) && p.b < |c| && |raw| % BLOCK_SIZE == 0 && Continues(p, offset, data)
    requires forall i :: 0 <= i < |c| && i != p.b ==> c[i] != c[p.b]
    requires Overlaid(raw, offset, data, Raw(blocks, c)) && ZerosElsewhere(raw, offset, data, Raw(blocks, c))
    requires p.base == blocks[c[p.b]]
    ensures InBlocks(c, |blocks[c[p.b] := p.nb]|)
    ensures ZerosElsewhere(raw, offset, data + p.chunk, Raw(blocks[c[p.b] := p.nb], c))
  {
    hide Overlaid, ZerosElsewhere, Continues, Raw, Max;
    RawRewritten(blocks, c, p.b, p.nb);
    RawBlock(blocks, c, p.b);
    MaxIs(BLOCK_SIZE * |c|, BLOCK_SIZE * (p.b + 1));
    ZerosWritten(raw, offset, data, Raw(blocks, c), p, Raw(blocks[c[p.b] := p.nb], c));
  }

  /** A round that first links a claimed block behind the chain. */
  lemma RoundGrowing(j: Job, data: seq<byte>, s: Stand, chunk: seq<byte>, e: u32, nb: Block, s': Stand)
    requires InFlight(j, data, s) && (j.offset + |data|) / BLOCK_SIZE == |s.c|
    requires ChunkDone(FromPrevious, s, j.offset + |data|, chunk, e, nb, s') && e < s.v.total
    requires s'.g == Append(s.g, j.k, e)
    ensures InFlight(j, data + chunk, s')
  {
    hide Progress, Core, SameElsewhere, PatchedBlock, Overlaid, ZerosElsewhere, Raw, Max, BlocksFor, KeptOutside;
    var b := |s.c|;
    ProgressFacts(j, data, s.v, s.g);
    StillKept(j.v.blocks, s.v.blocks, s.c, e, nb, s'.c);
    MaxIs(|Chain(j)|, BlocksFor(j.offset + |data + chunk|));
    MaxIs(|Chain(j)|, if data == [] then 0 else BlocksFor(j.offset + |data|));
    if data != [] { BlocksEnd(j.offset + |data|); }
    PatchFits(ZeroBlock(), (j.offset + |data|) % BLOCK_SIZE, chunk, nb);
    BlocksAfter(j.offset + |data|, |chunk|);
    var u := s.v.(table := Claimed(s.v.table, e, s.previous));
    GrowKeepsCore(s.v, s.g, j.k, e);
    assert s.previous == s.c[b - 1];
    ProgressGrow(j, data, s.v, s.g, e, u);
    ProgressWrite(j, data, u, s'.g, Rewrite(b, ZeroBlock(), chunk, nb), s'.v);
    GrowingZeros(j, data, s, chunk, e, nb, s', u);
  }

  lemma GrowingZeros(j: Job, data: seq<byte>, s: Stand, chunk: seq<byte>, e: u32, nb: Block, s': Stand, u: Vol)
    requires InFlight(j, data, s) && (j.offset + |data|) / BLOCK_SIZE == |s.c|
    requires ChunkDone(FromPrevious, s, j.offset + |data|, chunk, e, nb, s')
    requires Progress(j, data, u, s'.g) && s'.g.chains[j.k] == s'.c && u.blocks == s.v.blocks
    requires InBlocks(s'.c, |s'.v.blocks|)
    ensures ZerosElsewhere(Raw(j.v.blocks, Chain(j)), j.offset, data + chunk, Raw(s'.v.blocks, s'.c))
  {
    hide Progress, Core, SameElsewhere, Overlaid, ZerosElsewhere, PatchedBlock, Raw;
    ProgressFacts(j, data, s.v, s.g);
    ProgressFacts(j, data, u, s'.g);
    var b := |s.c|;
    var raw, r, r' := Raw(j.v.blocks, Chain(j)), Raw(s.v.blocks, s.c), Raw(s'.v.blocks, s'.c);
    RewriteElsewhere(j.v, j.g, u, s'.g, j.k, b, nb);
    RawExtends(s.v.blocks, s.c, e);
    RawRewritten(s.v.blocks, s'.c, b, nb);
    ZerosWritten(raw, j.offset, data, r, Rewrite(b, ZeroBlock(), chunk, nb), r');
  }

  // ----- what the write as written does once it leaves the chain -----

  /** t' is t with the free entries `stray` claimed, each as a chain of its own. */
  ghost predicate Orphaned(t: seq<u32>, stray: seq<u32>, t': seq<u32>) {
    && |t'| == |t|
    && (forall e :: 0 <= e < |t| ==> t'[e] == if e in stray then LAST_BLOCK else t[e])
    && (forall i :: 0 <= i < |stray| ==> 0 < stray[i] < |t| && t[stray[i]] == FREE_BLOCK)
    && (forall i, k :: 0 <= i < k < |stray| ==> stray[i] != stray[k])
  }

  lemma OrphanedOneMore(t: seq<u32>, stray: seq<u32>, t': seq<u32>, e: u32)
    requires Orphaned(t, stray, t') && 0 < e < |t| && t'[e] == FREE_BLOCK
    ensures Orphaned(t, stray + [e], t'[e := LAST_BLOCK]) && e !in stray && t[e] == FREE_BLOCK
  {
  }

  /** The blocks of c hold data at offset, the bytes of raw elsewhere, and zeros behind both. */
  ghost predicate Holds(raw: seq<byte>, offset: nat, data: seq<byte>, blocks: seq<Block>, c: seq<u32>) {
    && InBlocks(c, |blocks|) && |raw| % BLOCK_SIZE == 0 && |raw| <= BLOCK_SIZE * |c|
    && Overlaid(raw, offset, data, Raw(blocks, c)) && ZerosElsewhere(raw, offset, data, Raw(blocks, c))
  }

  /** Another chunk into one of these blocks. */
  lemma HoldsMore(raw: seq<byte>, offset: nat, data: seq<byte>, blocks: seq<Block>, c: seq<u32>, p: Rewrite)
    requires Holds(raw, offset, data, blocks, c) && p.b < |c| && c[p.b] < |blocks| && Continues(p, offset, data)
    requires forall i :: 0 <= i < |c| && i != p.b ==> c[i] != c[p.b]
    requires p.base == blocks[c[p.b]]
    ensures Holds(raw, offset, data + p.chunk, blocks[c[p.b] := p.nb], c)
  {
    hide Overlaid, ZerosElsewhere, Continues, Raw;
    ZerosInside(raw, offset, data, blocks, c, p);
    RawRewritten(blocks, c, p.b, p.nb);
    RawBlock(blocks, c, p.b);
    WrittenRange(raw, offset, data, Raw(blocks, c), p, Raw(blocks[c[p.b] := p.nb], c));
  }

  /** Another chunk into a block that comes into use for it. */
  lemma HoldsInOneMore(raw: seq<byte>, offset: nat, data: seq<byte>, blocks: seq<Block>, c: seq<u32>, e: u32,
                       p: Rewrite)
    requires Holds(raw, offset, data, blocks, c) && e < |blocks| && e !in c && p.b == |c| && Continues(p, offset, data)
    requires p.base == ZeroBlock()
    ensures Holds(raw, offset, data + p.chunk, blocks[e := p.nb], c + [e])
  {
    hide ZerosElsewhere, Raw;
    var c', r := c + [e], Raw(blocks, c);
    RawExtends(blocks, c, e);
    assert c'[p.b] == e;
    RawRewritten(blocks, c', p.b, p.nb);
    var r' := Raw(blocks[e := p.nb], c');
    ZerosWritten(raw, offset, data, r, p, r');
    assert Overlaid(raw, offset, data, Raw(blocks, c'));
    WrittenRange(raw, offset, data, Raw(blocks, c'), p, r');
  }

  /** The write has claimed blocks that nothing links to: c continues the chain with them, while the table still
      ends the chain where it did; together they hold what the write has come to.  Every other slot, its links and its
      blocks are as they were. */
  ghost predicate Strayed(j: Job, data: seq<byte>, s: Stand) {
    var at := j.offset + |data|;
    && WellFormed(j.v, j.g) && j.k < SLOTS && Live(j.g, j.k) && data != []
    && s.v.total == j.v.total && |s.v.dir| == SLOTS && |s.v.blocks| == s.v.total
    && s.v.dir[j.k].name == j.v.dir[j.k].name && s.v.dir[j.k].block == j.v.dir[j.k].block
    && SameElsewhere(j.v, j.g, s.v, j.g, j.k)
    && Chain(j) <= s.c && |Chain(j)| < |s.c| && InBlocks(s.c, s.v.total) && KeptOutside(j.v.blocks, s.v.blocks, s.c)
    && InBlocks(Chain(j), |j.v.blocks|) && Holds(Raw(j.v.blocks, Chain(j)), j.offset, data, s.v.blocks, s.c)
    && Orphaned(j.v.table, s.c[|Chain(j)|..], s.v.table)
    && |FreeSet(s.v.table, s.v.total)| + |s.c| == |FreeSet(j.v.table, j.v.total)| + |Chain(j)|
    && Walkable(s.v.table, s.v.total, s.c, at, s.current, s.previous)
    && BLOCK_SIZE * (|s.c| - 1) < at <= BLOCK_SIZE * |s.c|
  }

  /** A claimed block that nothing links to is still a place the position can be cached in. */
  lemma ClaimKeepsWalkable(t: seq<u32>, total: nat, c: seq<u32>, offset: nat, current: u32, previous: u32,
                           e: u32, n: nat, current': u32, previous': u32)
    requires Walkable(t, total, c, offset, current, previous) && offset / BLOCK_SIZE == |c|
    requires 0 < n <= BLOCK_SIZE - offset % BLOCK_SIZE
    requires 0 < e < total && t[e] == FREE_BLOCK && Placed(c + [e], offset + n, current', previous')
    ensures Walkable(Claimed(t, e, LAST_BLOCK), total, c + [e], offset + n, current', previous')
  {
    assert (offset + n) / BLOCK_SIZE == if n == BLOCK_SIZE - offset % BLOCK_SIZE then |c| + 1 else |c|;
  }

  lemma ClaimTakesOne(t: seq<u32>, total: nat, e: u32)
    requires 0 < e < total <= |t| && t[e] == FREE_BLOCK
    ensures |FreeSet(t[e := LAST_BLOCK], total)| == |FreeSet(t, total)| - 1
  {
    assert FreeSet(t[e := LAST_BLOCK], total) == FreeSet(t, total) - {e};
  }

  /** Writing into a block that was free when the write began touches no file. */
  lemma StrayBlockElsewhere(j: Job, v: Vol, e: u32, nb: Block, w: Vol)
    requires WellFormed(j.v, j.g) && |v.dir| == SLOTS && SameElsewhere(j.v, j.g, v, j.g, j.k)
    requires e < |j.v.table| && j.v.table[e] == FREE_BLOCK && e < |v.blocks|
    requires w.dir == v.dir && w.blocks == v.blocks[e := nb]
    ensures SameElsewhere(j.v, j.g, w, j.g, j.k)
  {
    ChainsArePartitioned(j.v.table, j.v.total, j.g);
    forall a: nat | a < SLOTS && a != j.k ensures SameFile(j.v, j.g, w, j.g, a) {
      assert SameFile(j.v, j.g, v, j.g, a);
      forall i | 0 <= i < |j.g.chains[a]|
        ensures j.g.chains[a][i] != e { assert j.v.table[j.g.chains[a][i]] != FREE_BLOCK; }
    }
  }

  /** The round in which the write as written leaves the chain. */
  lemma RoundLeaving(j: Job, data: seq<byte>, s: Stand, chunk: seq<byte>, e: u32, nb: Block, s': Stand)
    requires WellFormed(j.v, j.g) && InFlight(j, data, s) && s.g == j.g && s.v.table == j.v.table
    requires (j.offset + |data|) / BLOCK_SIZE == |s.c| && e < s.v.total
    requires ChunkDone(FromCurrent, s, j.offset + |data|, chunk, e, nb, s')
    ensures Strayed(j, data + chunk, s')
  {
    hide Progress, WellFormed, SameElsewhere, PatchedBlock, Walkable, Orphaned, ZerosElsewhere, FreeSet, Max,
        BlocksFor, Overlaid, Raw, KeptOutside;
    var at := j.offset + |data|;
    StillKept(j.v.blocks, s.v.blocks, s.c, e, nb, s'.c);
    ProgressFacts(j, data, s.v, s.g);
    PatchFits(ZeroBlock(), at % BLOCK_SIZE, chunk, nb);
    MaxIs(|Chain(j)|, if data == [] then 0 else BlocksFor(at));
    InFlightWalkable(j, data, s);
    ClaimKeepsWalkable(s.v.table, s.v.total, s.c, at, s.current, s.previous, e, |chunk|, s'.current, s'.previous);
    ClaimTakesOne(s.v.table, s.v.total, e);
    StrayBlockElsewhere(j, s.v, e, nb, s'.v);
    SameEntry(j, data, s);
    OrphanedFirst(j.v.table, e);
    assert s'.c[|Chain(j)|..] == [e];
    ChainInUse(j, e);
    HoldsInOneMore(Raw(j.v.blocks, Chain(j)), j.offset, data, s.v.blocks, s.c, e,
        Rewrite(|s.c|, ZeroBlock(), chunk, nb));
  }

  lemma ChainInUse(j: Job, e: u32)
    requires WellFormed(j.v, j.g) && j.k < SLOTS && e < |j.v.table| && j.v.table[e] == FREE_BLOCK
    ensures |j.g.chains| == SLOTS && e !in Chain(j)
  {
    ChainsArePartitioned(j.v.table, j.v.total, j.g);
  }

  /** The blocks are distinct and in use. */
  lemma StrayBlocks(j: Job, data: seq<byte>, s: Stand)
    requires Strayed(j, data, s)
    ensures forall i, k :: 0 <= i < k < |s.c| ==> s.c[i] != s.c[k]
    ensures forall i :: 0 <= i < |s.c| ==> s.c[i] < |s.v.table| && s.v.table[s.c[i]] != FREE_BLOCK
  {
    hide WellFormed, SameElsewhere, Walkable, Holds, FreeSet;
    var l, stray := |Chain(j)|, s.c[|Chain(j)|..];
    ChainDistinct(j);
    forall i | 0 <= i < |s.c|
      ensures s.c[i] < |s.v.table| && s.v.table[s.c[i]] != FREE_BLOCK
      ensures s.c[i] < |j.v.table| && (j.v.table[s.c[i]] == FREE_BLOCK <==> i >= l)
    {
      if i < l { assert s.c[i] == Chain(j)[i]; } else { assert s.c[i] == stray[i - l]; }
    }
    forall i, k | 0 <= i < k < |s.c| ensures s.c[i] != s.c[k] {
      if k < l {
        assert s.c[i] == Chain(j)[i] && s.c[k] == Chain(j)[k];
      } else if i >= l {
        assert s.c[i] == stray[i - l] && s.c[k] == stray[k - l];
      }
    }
  }

  lemma ChainDistinct(j: Job)
    requires WellFormed(j.v, j.g) && j.k < SLOTS
    ensures |j.g.chains| == SLOTS && forall i, k :: 0 <= i < k < |Chain(j)| ==> Chain(j)[i] != Chain(j)[k]
    ensures forall i :: 0 <= i < |Chain(j)| ==> Chain(j)[i] < |j.v.table| && j.v.table[Chain(j)[i]] != FREE_BLOCK
  {
    ChainsArePartitioned(j.v.table, j.v.total, j.g);
  }

  lemma SameEntry(j: Job, data: seq<byte>, s: Stand)
    requires InFlight(j, data, s)
    ensures j.k < SLOTS == |s.v.dir| == |j.v.dir| && s.v.dir[j.k].name == j.v.dir[j.k].name
    ensures s.v.dir[j.k].block == j.v.dir[j.k].block
  {
    assert SlotOk(j.v.dir, j.g, j.k) && SlotOk(s.v.dir, s.g, j.k);
  }

  lemma OrphanedFirst(t: seq<u32>, e: u32)
    requires 0 < e < |t| && t[e] == FREE_BLOCK
    ensures Orphaned(t, [e], t[e := LAST_BLOCK])
  {
  }

  /** Every later round stays outside. */
  lemma RoundOutside(j: Job, data: seq<byte>, s: Stand, chunk: seq<byte>, e: u32, nb: Block, s': Stand)
    requires Strayed(j, data, s) && ChunkDone(FromCurrent, s, j.offset + |data|, chunk, e, nb, s') && e < s.v.total
    ensures Strayed(j, data + chunk, s')
  {
    hide WellFormed, SameElsewhere, PatchedBlock, Walkable, Orphaned, Placed, FreeSet, Holds, KeptOutside;
    var at := j.offset + |data|;
    StrayBlocks(j, data, s);
    RoundOutsideBytes(j, data, s, chunk, e, nb, s');
    var l := |Chain(j)|;
    var before, stray := j.v.table, s.c[l..];
    PatchFits(Base(s, at / BLOCK_SIZE == |s.c|, e), at % BLOCK_SIZE, chunk, nb);
    WalkableMeans(s.v.table, s.v.total, s.c, at, s.current, s.previous);
    if at / BLOCK_SIZE < |s.c| {
      assert at / BLOCK_SIZE == |s.c| - 1;
      assert stray[|s.c| - 1 - l] == e;
      StrayIsFree(before, stray, s.v.table, |s.c| - 1 - l);
      OutsideWalkable(s.v.table, s.v.total, s.c, at, s.current, s.previous, |chunk|, s'.current, s'.previous);
    } else {
      assert at == BLOCK_SIZE * |s.c|;
      ClaimKeepsWalkable(s.v.table, s.v.total, s.c, at, s.current, s.previous, e, |chunk|, s'.current, s'.previous);
      ClaimTakesOne(s.v.table, s.v.total, e);
      StrayLength(before, stray, s.v.table);
      OrphanedOneMore(before, stray, s.v.table, e);
      assert s'.c[l..] == stray + [e];
    }
    StrayBlockElsewhere(j, s.v, e, nb, s'.v);
    StillKept(j.v.blocks, s.v.blocks, s.c, e, nb, s'.c);
  }

  lemma RoundOutsideBytes(j: Job, data: seq<byte>, s: Stand, chunk: seq<byte>, e: u32, nb: Block, s': Stand)
    requires Strayed(j, data, s) && ChunkDone(FromCurrent, s, j.offset + |data|, chunk, e, nb, s') && e < s.v.total
    ensures Holds(Raw(j.v.blocks, Chain(j)), j.offset, data + chunk, s'.v.blocks, s'.c)
  {
    hide WellFormed, SameElsewhere, PatchedBlock, Orphaned, Placed, FreeSet, Holds, Walkable, Raw;
    var at, raw := j.offset + |data|, Raw(j.v.blocks, Chain(j));
    StrayBlocks(j, data, s);
    WalkableMeans(s.v.table, s.v.total, s.c, at, s.current, s.previous);
    if at / BLOCK_SIZE < |s.c| {
      HoldsMore(raw, j.offset, data, s.v.blocks, s.c, Rewrite(at / BLOCK_SIZE, s.v.blocks[e], chunk, nb));
    } else {
      HoldsInOneMore(raw, j.offset, data, s.v.blocks, s.c, e, Rewrite(|s.c|, ZeroBlock(), chunk, nb));
    }
  }

  lemma StrayIsFree(t: seq<u32>, stray: seq<u32>, t': seq<u32>, i: nat)
    requires Orphaned(t, stray, t') && i < |stray|
    ensures stray[i] < |t| && t[stray[i]] == FREE_BLOCK
  {
  }

  lemma StrayLength(t: seq<u32>, stray: seq<u32>, t': seq<u32>)
    requires Orphaned(t, stray, t')
    ensures |t'| == |t|
  {
  }

  lemma WalkableMeans(t: seq<u32>, total: nat, c: seq<u32>, offset: nat, current: u32, previous: u32)
    requires Walkable(t, total, c, offset, current, previous)
    ensures total <= |t| && offset / BLOCK_SIZE <= |c|
    ensures (offset / BLOCK_SIZE < |c| ==> current == c[offset / BLOCK_SIZE])
  {
  }

  lemma OutsideWalkable(t: seq<u32>, total: nat, c: seq<u32>, at: nat, current: u32, previous: u32, n: nat,
                        current': u32, previous': u32)
    requires Walkable(t, total, c, at, current, previous) && at / BLOCK_SIZE == |c| - 1
    requires 0 < n <= BLOCK_SIZE - at % BLOCK_SIZE
    requires Placed(c, at + n, current', previous')
    ensures Walkable(t, total, c, at + n, current', previous')
  {
    assert (at + n) / BLOCK_SIZE == if n == BLOCK_SIZE - at % BLOCK_SIZE then |c| else |c| - 1;
  }

  // ----- any round -----

  /** Where the loop stands: on the chain, or past it with a block that no link leads to. */
  ghost predicate Underway(growth: Growth, j: Job, data: seq<byte>, s: Stand) {
    && WellFormed(j.v, j.g)
    && (growth.FromCurrent? ==> s.g == j.g)
    && if s.strayed then growth.FromCurrent? && Strayed(j, data, s)
       else InFlight(j, data, s) && (growth.FromCurrent? || data == [] ==> s.v.table == j.v.table && s.c == Chain(j))
  }

  lemma UnderwayStart(growth: Growth, j: Job, current: u32, previous: u32)
    requires WellFormed(j.v, j.g) && j.k < SLOTS && Live(j.g, j.k) && Placed(Chain(j), j.offset, current, previous)
    ensures Underway(growth, j, [], Stand(j.v, j.g, Chain(j), current, previous, false))
  {
    ProgressStart(j);
  }

  lemma UnderwayWalkable(growth: Growth, j: Job, data: seq<byte>, s: Stand)
    requires Underway(growth, j, data, s)
    ensures Walkable(s.v.table, s.v.total, s.c, j.offset + |data|, s.current, s.previous) && |s.v.blocks| == s.v.total
    ensures (j.offset + |data|) / BLOCK_SIZE <= |s.c| && j.k < |s.g.chains| && j.k < SLOTS == |s.v.dir|
  {
    if !s.strayed { InFlightWalkable(j, data, s); }
  }

  /** Blocks are claimed as far as the data reaches. */
  lemma UnderwayLength(growth: Growth, j: Job, data: seq<byte>, s: Stand)
    requires Underway(growth, j, data, s)
    ensures j.k < |j.g.chains|
    ensures |s.c| == Max(|Chain(j)|, if data == [] then 0 else BlocksFor(j.offset + |data|))
  {
    hide Progress, SameElsewhere, Orphaned, Walkable, Links, Directory;
    if !s.strayed { ProgressFacts(j, data, s.v, s.g); }
  }

  /** Recording a size in the file's slot disturbs nothing of this. */
  lemma UnderwayResized(growth: Growth, j: Job, data: seq<byte>, s: Stand, size: u32)
    requires Underway(growth, j, data, s) && j.k < |s.v.dir|
    ensures Underway(growth, j, data, s.(v := s.v.(dir := s.v.dir[j.k := s.v.dir[j.k].(size := size)])))
  {
    var w := s.v.(dir := s.v.dir[j.k := s.v.dir[j.k].(size := size)]);
    var h := if s.strayed then j.g else s.g;
    forall a: nat | a < SLOTS && a != j.k ensures SameFile(j.v, j.g, w, h, a) { assert SameFile(j.v, j.g, s.v, h, a); }
    if !s.strayed {
      forall a: nat | a < SLOTS ensures SlotOk(w.dir, s.g, a) { assert SlotOk(s.v.dir, s.g, a); }
    }
  }

  /** Every round, in either way of growing, brings the write further. */
  lemma Round(growth: Growth, j: Job, data: seq<byte>, s: Stand, chunk: seq<byte>, e: u32, nb: Block, done: Stand)
    returns (s': Stand)
    requires Underway(growth, j, data, s) && ChunkDone(growth, s, j.offset + |data|, chunk, e, nb, done)
    ensures Underway(growth, j, data + chunk, s')
    ensures s'.v == done.v && s'.c == done.c && s'.current == done.current && s'.previous == done.previous
  {
    hide Progress, WellFormed, Strayed, Placed, PatchedBlock, ZerosElsewhere;
    var at := j.offset + |data|;
    UnderwayWalkable(growth, j, data, s);
    if s.strayed {
      s' := done.(g := s.g, strayed := true);
      RoundOutside(j, data, s, chunk, e, nb, s');
    } else if at / BLOCK_SIZE < |s.c| {
      s' := done.(g := s.g, strayed := false);
      RoundInside(growth, j, data, s, chunk, e, nb, s');
    } else if growth.FromPrevious? {
      s' := done.(g := Append(s.g, j.k, e), strayed := false);
      RoundGrowing(j, data, s, chunk, e, nb, s');
    } else {
      s' := done.(g := s.g, strayed := true);
      RoundLeaving(j, data, s, chunk, e, nb, s');
    }
  }
}
