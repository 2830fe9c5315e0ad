/** What a finished write leaves behind: the new contents, or a disk that no shape fits. */
module WriteResult {
  import opened Types
  import opened Volume
  import opened VolumeFacts
  import opened FileSystem
  import opened WriteProgress

  /** With the chain where it was and the recorded size past its end, no shape fits the disk. */
  lemma StrayedIsMalformed(v0: Vol, g0: Shape, k: nat, w: Vol)
    requires WellFormed(v0, g0) && k < SLOTS && Live(g0, k) && Walk(w.table, g0.chains[k]) && |w.dir| == SLOTS
    requires w.dir[k].block == v0.dir[k].block && w.dir[k].size > BLOCK_SIZE * |g0.chains[k]|
    ensures forall h :: !WellFormed(w, h)
  {
    assert SlotOk(v0.dir, g0, k);
    assert InPlace(v0.table, v0.total, g0, k, 0);
    forall h ensures !WellFormed(w, h) {
      if WellFormed(w, h) {
        assert SlotOk(w.dir, h, k) && Sized(w.dir, h, k);
        ChainIsWalk(w.table, w.total, h, k);
        WalkIsUnique(w.table, h.chains[k], g0.chains[k]);
        assert false;
      }
    }
  }

  /** Overwriting with a byte sequence: what lies before and behind it stays. */
  function Splice(base: seq<byte>, offset: nat, data: seq<byte>): (r: seq<byte>)
    requires offset <= |base|
    ensures |r| == Max(|base|, offset + |data|)
  {
    base[..offset] + data + (if offset + |data| < |base| then base[offset + |data|..] else [])
  }

  /** The first n bytes of a file's blocks once data has been written at offset over raw. */
  ghost function RawAfter(raw: seq<byte>, offset: nat, data: seq<byte>, n: nat): (r: seq<byte>)
    ensures |r| == n
  {
    seq(n, p requires 0 <= p < n => ByteAfter(raw, offset, data, p))
  }

  /** How many of `size` bytes fit into the file's blocks and the free ones. */
  ghost function Taken(v: Vol, g: Shape, k: nat, offset: nat, size: nat): (n: nat)
    requires v.total <= |v.table| && k < |g.chains|
    ensures n <= size
  {
    Max(0, Min(size, BLOCK_SIZE * (|g.chains[k]| + |FreeSet(v.table, v.total)|) - offset))
  }

  /** The write claims a block that nothing links to: growth as written does so unless the request fits the
      blocks that the file has, or no entry is free. */
  ghost predicate Strays(growth: Growth, v: Vol, g: Shape, k: nat, offset: nat, size: nat)
    requires v.total <= |v.table| && k < |g.chains|
  {
    growth.FromCurrent? && size > 0 && offset + size > BLOCK_SIZE * |g.chains[k]| && FreeSet(v.table, v.total) != {}
  }

  /** The position is behind the file's blocks and the write brings none; its offset is recorded as size all the
      same. */
  ghost predicate Hollow(v: Vol, g: Shape, k: nat, offset: nat, size: nat)
    requires v.total <= |v.table| && k < |g.chains|
  {
    offset > BLOCK_SIZE * |g.chains[k]| && (size == 0 || FreeSet(v.table, v.total) == {})
  }

  /** The write leaves a well-formed volume. */
  ghost predicate KeepsShape(growth: Growth, v: Vol, g: Shape, k: nat, offset: nat, size: nat)
    requires v.total <= |v.table| && k < |g.chains|
  {
    !Strays(growth, v, g, k, offset, size) && !Hollow(v, g, k, offset, size)
  }

  /** w is v0 with `data` written at `offset` into the file of slot k and nothing else changed. */
  ghost predicate Written(v0: Vol, g0: Shape, k: nat, offset: nat, data: seq<byte>, w: Vol, g: Shape) {
    && WellFormed(v0, g0) && k < SLOTS && Live(g0, k)
    && WellFormed(w, g) && Live(g, k) && SameElsewhere(v0, g0, w, g, k) && w.total == v0.total
    && w.dir[k].name == v0.dir[k].name && g0.chains[k] <= g.chains[k]
    && w.dir[k].size == Max(v0.dir[k].size, offset + |data|)
    && InBlocks(g0.chains[k], |v0.blocks|) && InBlocks(g.chains[k], |w.blocks|)
    && KeptOutside(v0.blocks, w.blocks, g.chains[k])
    && Raw(w.blocks, g.chains[k]) == RawAfter(Raw(v0.blocks, g0.chains[k]), offset, data, BLOCK_SIZE * |g.chains[k]|)
    && Files(w, g) == Files(v0, g0)[v0.dir[k].name := Contents(w, g, k)]
  }

  /** The contents: the data at its place; around it what the file's blocks held, even behind its size, and zeros
      where it had none. */
  lemma WrittenContents(v0: Vol, g0: Shape, k: nat, offset: nat, data: seq<byte>, w: Vol, g: Shape)
    requires Written(v0, g0, k, offset, data, w, g)
    ensures k < SLOTS == |v0.dir| && InBlocks(g0.chains[k], |v0.blocks|)
    ensures Contents(w, g, k)
              == RawAfter(Raw(v0.blocks, g0.chains[k]), offset, data, Max(v0.dir[k].size, offset + |data|))
  {
    assert Sized(w.dir, g, k);
  }

  /** From a position inside the file that is a splice. */
  lemma WrittenIsSplice(v0: Vol, g0: Shape, k: nat, offset: nat, data: seq<byte>, w: Vol, g: Shape)
    requires Written(v0, g0, k, offset, data, w, g)
    requires |v0.dir| == SLOTS && offset <= v0.dir[k].size
    ensures Contents(w, g, k) == Splice(Contents(v0, g0, k), offset, data)
  {
    WrittenContents(v0, g0, k, offset, data, w, g);
    assert Sized(v0.dir, g0, k);
    var l, r := Contents(w, g, k), Splice(Contents(v0, g0, k), offset, data);
    forall p | 0 <= p < |l| ensures l[p] == r[p] {}
  }

  /** Where the bytes went: the file's own blocks and then the claimed ones, in the order of the claims, hold the data
      at its place, what the file's blocks held elsewhere, and zeros; no other block changed. */
  ghost predicate Spilled(v0: Vol, g0: Shape, k: nat, offset: nat, data: seq<byte>, stray: seq<u32>, w: Vol)
    requires k < |g0.chains|
  {
    var c := g0.chains[k] + stray;
    && Orphaned(v0.table, stray, w.table)
    && |c| == (if data == [] then |g0.chains[k]| else BlocksFor(offset + |data|))
    && InBlocks(g0.chains[k], |v0.blocks|) && InBlocks(c, |w.blocks|) && KeptOutside(v0.blocks, w.blocks, c)
    && Raw(w.blocks, c) == RawAfter(Raw(v0.blocks, g0.chains[k]), offset, data, BLOCK_SIZE * |c|)
  }

  /** So every byte in the file's own blocks is the new one in the range written and the old one elsewhere. */
  lemma OwnBlocksWritten(v0: Vol, g0: Shape, k: nat, offset: nat, data: seq<byte>, stray: seq<u32>, w: Vol, p: nat)
    requires k < |g0.chains| && Spilled(v0, g0, k, offset, data, stray, w) && p < BLOCK_SIZE * |g0.chains[k]|
    ensures g0.chains[k][p / BLOCK_SIZE] < |w.blocks| && g0.chains[k][p / BLOCK_SIZE] < |v0.blocks|
    ensures w.blocks[g0.chains[k][p / BLOCK_SIZE]][p % BLOCK_SIZE]
            == if offset <= p < offset + |data| then data[p - offset]
               else v0.blocks[g0.chains[k][p / BLOCK_SIZE]][p % BLOCK_SIZE]
  {
    var own, c := g0.chains[k], g0.chains[k] + stray;
    assert c[p / BLOCK_SIZE] == own[p / BLOCK_SIZE];
    assert Raw(w.blocks, c)[p] == ByteAt(w.blocks, c, p) && Raw(v0.blocks, own)[p] == ByteAt(v0.blocks, own, p);
  }

  /** What is left of the disk when the write does not keep its shape: other files and their links as they were,
      the file's chain too, its size past the end, and the blocks claimed for it outside all chains; the bytes are in
      the file's blocks and in these. */
  ghost predicate Broken(v0: Vol, g0: Shape, k: nat, offset: nat, data: seq<byte>, w: Vol) {
    && |w.dir| == |v0.dir| == |g0.chains| == SLOTS && k < SLOTS && w.total == v0.total && |w.blocks| == w.total
    && w.dir[k].name == v0.dir[k].name && w.dir[k].block == v0.dir[k].block
    && w.dir[k].size == offset + |data| > BLOCK_SIZE * |g0.chains[k]|
    && SameElsewhere(v0, g0, w, g0, k)
    && (exists stray :: Spilled(v0, g0, k, offset, data, stray, w))
    && forall h :: !WellFormed(w, h)
  }

  /** What a write leaves behind when n of its bytes were taken. */
  ghost predicate WriteOutcome(growth: Growth, v0: Vol, g0: Shape, k: nat, offset: nat, data: seq<byte>, n: nat, w: Vol,
                               g: Shape) {
    && WellFormed(v0, g0) && k < SLOTS && Live(g0, k) && n <= |data| && n == Taken(v0, g0, k, offset, |data|)
    && if KeepsShape(growth, v0, g0, k, offset, |data|) then Written(v0, g0, k, offset, data[..n], w, g)
       else Broken(v0, g0, k, offset, data[..n], w)
  }

  lemma OutcomeMeans(growth: Growth, v0: Vol, g0: Shape, k: nat, offset: nat, data: seq<byte>, n: nat, w: Vol, g: Shape)
    requires WriteOutcome(growth, v0, g0, k, offset, data, n, w, g)
    ensures v0.total <= |v0.table| && k < |g0.chains| && n == Taken(v0, g0, k, offset, |data|)
    ensures KeepsShape(growth, v0, g0, k, offset, |data|) <==> WellFormed(w, g)
  {
  }

  /** Claiming free entries cuts no chain. */
  lemma OrphanedKeepsWalk(v: Vol, g: Shape, a: nat, stray: seq<u32>, t: seq<u32>)
    requires WellFormed(v, g) && a < SLOTS && Orphaned(v.table, stray, t)
    ensures Walk(t, g.chains[a]) && forall e :: e in stray ==> e !in g.chains[a]
  {
    ChainIsWalk(v.table, v.total, g, a);
    ChainsArePartitioned(v.table, v.total, g);
    var c := g.chains[a];
    forall i: nat | i < |c| ensures c[i] < |t| < LAST_BLOCK && t[c[i]] == Next(c, i) && c[i] !in stray {
      var next := Next(c, i);
      assert v.table[c[i]] == next != FREE_BLOCK;
    }
  }

  /** The loop has ended because the request or the free space is used up. */
  ghost predicate Ended(j: Job, data: seq<byte>, n: nat, s: Stand) {
    n <= |data| && (n < |data| ==> NoFreeEntry(s.v.table) && (j.offset + n) / BLOCK_SIZE == |s.c|)
  }

  /** Then it took as many bytes as there was room for, and has strayed exactly under the stated condition. */
  lemma LoopEnded(growth: Growth, j: Job, data: seq<byte>, n: nat, s: Stand)
    requires Ended(j, data, n, s) && Underway(growth, j, data[..n], s)
    ensures j.k < SLOTS == |j.v.dir| == |j.g.chains| && j.v.total <= |j.v.table|
    ensures n == Taken(j.v, j.g, j.k, j.offset, |data|)
    ensures s.strayed <==> Strays(growth, j.v, j.g, j.k, j.offset, |data|)
  {
    hide Walkable, SameElsewhere, Orphaned, Overlaid, ZerosElsewhere, Links, Directory, Placed, Raw;
    CoreFacts(j.v, j.g);
    LinksBound(j.v.table, j.v.total, j.g);
    UnderwayAt(growth, j, data[..n], s);
    var l, free := |Chain(j)|, |FreeSet(j.v.table, j.v.total)|;
    if n < |data| {
      assert FreeSet(s.v.table, s.v.total) == {};
      assert |s.c| == l + free;
    }
    assert FreeSet(j.v.table, j.v.total) == {} <==> free == 0;
  }

  lemma LinksBound(t: seq<u32>, total: nat, g: Shape)
    requires Links(t, total, g)
    ensures total <= |t|
  {
  }

  /** Blocks are claimed only as far as the data reaches. */
  lemma UnderwayAt(growth: Growth, j: Job, data: seq<byte>, s: Stand)
    requires Underway(growth, j, data, s)
    ensures j.k < SLOTS && Live(j.g, j.k) && s.v.total == j.v.total && s.v.total <= |s.v.table| && |Chain(j)| <= |s.c|
    ensures (j.offset + |data|) / BLOCK_SIZE <= |s.c|
    ensures data != [] ==> j.offset + |data| <= BLOCK_SIZE * |s.c|
    ensures data == [] ==> !s.strayed && |s.c| == |Chain(j)|
    ensures |FreeSet(s.v.table, s.v.total)| + |s.c| == |FreeSet(j.v.table, j.v.total)| + |Chain(j)|
    ensures s.strayed ==> growth.FromCurrent? && j.offset + |data| > BLOCK_SIZE * |Chain(j)| && |s.c| > |Chain(j)|
    ensures !s.strayed && growth.FromCurrent? ==> |s.c| == |Chain(j)|
  {
    UnderwayWalkable(growth, j, data, s);
    if !s.strayed { ProgressFacts(j, data, s.v, s.g); }
  }

  lemma StrayedIsBroken(growth: Growth, j: Job, data: seq<byte>, s: Stand)
    requires Underway(growth, j, data, s) && s.strayed
    requires j.k < |s.v.dir| && j.k < |j.v.dir| && s.v.dir[j.k].size == Max(j.v.dir[j.k].size, j.offset + |data|)
    ensures Broken(j.v, j.g, j.k, j.offset, data, s.v)
  {
    hide Walkable, SameElsewhere, Orphaned, Links, Directory, Overlaid, ZerosElsewhere, Raw, RawAfter;
    var at, l := j.offset + |data|, |Chain(j)|;
    SizeInChain(j.v, j.g, j.k);
    OrphanedKeepsWalk(j.v, j.g, j.k, s.c[l..], s.v.table);
    StrayedIsMalformed(j.v, j.g, j.k, s.v);
    assert BlocksFor(at) == |s.c|;
    var raw := Raw(j.v.blocks, Chain(j));
    OverlaidExactly(raw, j.offset, data, Raw(s.v.blocks, s.c));
    assert Chain(j) + s.c[l..] == s.c;
    assert Spilled(j.v, j.g, j.k, j.offset, data, s.c[l..], s.v);
  }

  lemma SizeInChain(v: Vol, g: Shape, k: nat)
    requires WellFormed(v, g) && k < SLOTS && Live(g, k)
    ensures |v.dir| == |g.chains| == SLOTS && v.dir[k].size <= BLOCK_SIZE * |g.chains[k]|
    ensures |g.chains[k]| == BlocksFor(v.dir[k].size)
  {
    assert Sized(v.dir, g, k);
  }

  lemma HollowIsBroken(growth: Growth, j: Job, s: Stand)
    requires Underway(growth, j, [], s) && j.offset > BLOCK_SIZE * |Chain(j)|
    requires j.k < |s.v.dir| && j.k < |j.v.dir| && s.v.dir[j.k].size == Max(j.v.dir[j.k].size, j.offset)
    ensures Broken(j.v, j.g, j.k, j.offset, [], s.v)
  {
    hide SameElsewhere, Links, Directory, Overlaid, ZerosElsewhere, Raw, RawAfter;
    SizeInChain(j.v, j.g, j.k);
    ProgressFacts(j, [], s.v, s.g);
    SameElsewhereOldShape(j.v, j.g, s.v, s.g, j.k);
    SameEntry(j, [], s);
    CoreFacts(j.v, j.g);
    ChainIsWalk(j.v.table, j.v.total, j.g, j.k);
    StrayedIsMalformed(j.v, j.g, j.k, s.v);
    OverlaidExactly(Raw(j.v.blocks, Chain(j)), j.offset, [], Raw(s.v.blocks, s.c));
    assert Chain(j) + [] == s.c;
    assert Spilled(j.v, j.g, j.k, j.offset, [], [], s.v);
  }

  lemma SameElsewhereOldShape(v: Vol, g: Shape, w: Vol, h: Shape, k: nat)
    requires |v.dir| == |w.dir| == |g.chains| == |h.chains| == SLOTS && SameElsewhere(v, g, w, h, k)
    ensures SameElsewhere(v, g, w, g, k)
  {
    forall a: nat | a < SLOTS && a != k ensures SameFile(v, g, w, g, a) { assert SameFile(v, g, w, h, a); }
  }

  /** A write that kept to its chain is written. */
  lemma LinkedIsWritten(growth: Growth, j: Job, data: seq<byte>, s: Stand)
    requires Underway(growth, j, data, s) && !s.strayed && (data == [] ==> j.offset <= BLOCK_SIZE * |Chain(j)|)
    requires j.k < |s.v.dir| && j.k < |j.v.dir| && s.v.dir[j.k].size == Max(j.v.dir[j.k].size, j.offset + |data|)
    ensures Written(j.v, j.g, j.k, j.offset, data, s.v, s.g)
  {
    hide SameElsewhere, Links, Directory, Overlaid, ZerosElsewhere, Raw, RawAfter, Files, Contents;
    SizeInChain(j.v, j.g, j.k);
    ProgressFacts(j, data, s.v, s.g);
    ResizedIsWellFormed(j.v, j.g, s.v, s.g, j.k);
    OverlaidExactly(Raw(j.v.blocks, Chain(j)), j.offset, data, Raw(s.v.blocks, s.c));
    FilesUpdated(j.v, j.g, s.v, s.g, j.k);
  }

  lemma OverlaidExactly(raw: seq<byte>, offset: nat, data: seq<byte>, r: seq<byte>)
    requires Overlaid(raw, offset, data, r) && ZerosElsewhere(raw, offset, data, r)
    ensures r == RawAfter(raw, offset, data, |r|)
  {
  }

  lemma ResizedIsWellFormed(v: Vol, g: Shape, w: Vol, h: Shape, k: nat)
    requires WellFormed(v, g) && Core(w, h) && k < SLOTS
    requires |v.dir| == |w.dir| == |g.chains| == |h.chains| == SLOTS && SameElsewhere(v, g, w, h, k)
    requires |h.chains[k]| == BlocksFor(w.dir[k].size)
    ensures WellFormed(w, h)
  {
    forall a: nat | a < SLOTS ensures Sized(w.dir, h, a) {
      assert Sized(v.dir, g, a);
      if a != k { assert SameFile(v, g, w, h, a); }
    }
  }

  lemma TakenIs(j: Job, size: nat)
    requires j.v.total <= |j.v.table| && j.k < |j.g.chains|
    ensures Hollow(j.v, j.g, j.k, j.offset, size) ==> Taken(j.v, j.g, j.k, j.offset, size) == 0
    ensures !Hollow(j.v, j.g, j.k, j.offset, size) && Taken(j.v, j.g, j.k, j.offset, size) == 0
              && j.offset / BLOCK_SIZE <= |Chain(j)|
            ==> j.offset <= BLOCK_SIZE * |Chain(j)|
  {
    assert FreeSet(j.v.table, j.v.total) == {} <==> |FreeSet(j.v.table, j.v.total)| == 0;
  }

  lemma PlacedIn(growth: Growth, j: Job, data: seq<byte>, s: Stand)
    requires Underway(growth, j, data, s) && !s.strayed
    ensures Placed(s.g.chains[j.k], j.offset + |data|, s.current, s.previous)
    ensures data == [] ==> j.offset / BLOCK_SIZE <= |Chain(j)|
  {
    ProgressFacts(j, data, s.v, s.g);
  }

  lemma WrittenMeans(v0: Vol, g0: Shape, k: nat, offset: nat, data: seq<byte>, w: Vol, g: Shape)
    requires Written(v0, g0, k, offset, data, w, g)
    ensures WellFormed(w, g) && k < SLOTS == |g0.chains| == |g.chains| && g.chains[k] != []
    ensures g.chains[k][0] == g0.chains[k][0]
  {
  }

  lemma BrokenMeans(v0: Vol, g0: Shape, k: nat, offset: nat, data: seq<byte>, w: Vol)
    ensures Broken(v0, g0, k, offset, data, w) ==> forall h :: !WellFormed(w, h)
  {
  }

  /** What is on disk once the directory records the larger of the two sizes. */
  lemma WriteEnds(growth: Growth, j: Job, data: seq<byte>, n: nat, s: Stand)
    requires Ended(j, data, n, s) && Underway(growth, j, data[..n], s)
    requires j.k < |s.v.dir| && j.k < |j.v.dir| && s.v.dir[j.k].size == Max(j.v.dir[j.k].size, j.offset + n)
    ensures WriteOutcome(growth, j.v, j.g, j.k, j.offset, data, n, s.v, s.g)
    ensures j.v.total <= |j.v.table| && j.k < |j.g.chains| && j.k < |s.g.chains|
    ensures KeepsShape(growth, j.v, j.g, j.k, j.offset, |data|) <==> WellFormed(s.v, s.g)
    ensures KeepsShape(growth, j.v, j.g, j.k, j.offset, |data|) ==>
              !s.strayed && s.g.chains[j.k] != [] && s.g.chains[j.k][0] == Chain(j)[0]
              && Placed(s.g.chains[j.k], j.offset + n, s.current, s.previous)
  {
    hide Progress, WellFormed, Strayed, Placed, Written, Broken, Taken;
    UnderwayAt(growth, j, data[..n], s);
    UnderwayWalkable(growth, j, data[..n], s);
    LoopEnded(growth, j, data, n, s);
    if s.strayed {
      StrayedIsBroken(growth, j, data[..n], s);
    } else if Hollow(j.v, j.g, j.k, j.offset, |data|) {
      TakenIs(j, |data|);
      assert data[..n] == [];
      HollowIsBroken(growth, j, s);
    } else {
      TakenIs(j, |data|);
      PlacedIn(growth, j, data[..n], s);
      LinkedIsWritten(growth, j, data[..n], s);
      WrittenMeans(j.v, j.g, j.k, j.offset, data[..n], s.v, s.g);
    }
    BrokenMeans(j.v, j.g, j.k, j.offset, data[..n], s.v);
  }
}
