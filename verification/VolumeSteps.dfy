/** How creating, truncating and removing a file changes a well-formed volume. */
module VolumeSteps {
  import opened Types
  import opened Volume
  import opened VolumeFacts

  /** A slot is free exactly when its block index says so. */
  lemma FreeSlot(v: Vol, g: Shape, k: nat)
    requires Core(v, g) && k < SLOTS
    ensures v.dir[k].block == FREE_BLOCK <==> !Live(g, k)
  {
    assert SlotOk(v.dir, g, k);
    if Live(g, k) { assert InPlace(v.table, v.total, g, k, 0); }
  }

  /** The file in slot k of w is empty and has one block; it was emptied (its other blocks are free
      now) or is new (its block was free, its slot too).  All other files are as in v. */
  ghost predicate Emptied(v: Vol, g: Shape, k: nat, w: Vol, h: Shape) {
    && WellFormed(v, g) && WellFormed(w, h) && k < SLOTS && w.total == v.total && SameElsewhere(v, g, w, h, k)
    && w.blocks == v.blocks
    && Live(h, k) && |h.chains[k]| == 1 && w.dir[k].size == 0 && w.dir[k].block == h.chains[k][0]
    && Files(w, h) == Files(v, g)[w.dir[k].name := []]
    && if Live(g, k) then
         w.dir[k].name == v.dir[k].name && h.chains[k][0] == g.chains[k][0]
         && |FreeSet(w.table, w.total)| == |FreeSet(v.table, v.total)| + |g.chains[k]| - 1
       else
         w.dir[k].name !in Files(v, g) && |FreeSet(w.table, w.total)| == |FreeSet(v.table, v.total)| - 1
  }

  /** The file in slot k of v is gone and its blocks are free; all other files are as in v. */
  ghost predicate Removed(v: Vol, g: Shape, k: nat, w: Vol, h: Shape) {
    && WellFormed(v, g) && WellFormed(w, h) && k < SLOTS && w.total == v.total && SameElsewhere(v, g, w, h, k)
    && Live(g, k) && !Live(h, k) && w.dir[k] == EMPTY_DENTRY && w.blocks == v.blocks
    && Files(w, h) == Files(v, g) - {v.dir[k].name}
    && |FreeSet(w.table, w.total)| == |FreeSet(v.table, v.total)| + |g.chains[k]|
  }

  ghost predicate Created(v: Vol, g: Shape, k: nat, dentry: Dentry, w: Vol, h: Shape) {
    && k < SLOTS && |v.dir| == SLOTS && |g.chains| == SLOTS && 0 < dentry.block < |v.table|
    && w.table == v.table[dentry.block := LAST_BLOCK] && w.dir == v.dir[k := dentry]
    && w.total == v.total && w.blocks == v.blocks && h == Start(g, k, dentry.block)
  }

  /** A claimed block entered into a free slot under a new name starts a file; nothing else changes. */
  lemma CreateKeepsCore(v: Vol, g: Shape, k: nat, dentry: Dentry, w: Vol, h: Shape)
    requires WellFormed(v, g) && Created(v, g, k, dentry, w, h) && !Live(g, k)
    requires dentry.block < v.total && v.table[dentry.block] == FREE_BLOCK
    requires LegalName(dentry.name) && dentry.name !in Files(v, g)
    ensures Core(w, h) && SameElsewhere(v, g, w, h, k) && h.chains[k] == [dentry.block]
    ensures FreeSet(w.table, w.total) == FreeSet(v.table, v.total) - {dentry.block}
  {
    StartKeepsLinks(v.table, v.total, g, k, dentry.block);
    forall a: nat | a < SLOTS && Live(g, a) ensures v.dir[a].name != dentry.name { FilesAt(v, g, a); }
    forall a: nat | a < SLOTS ensures SlotOk(w.dir, h, a) {
      assert SlotOk(v.dir, g, a);
    }
    forall a: nat, b: nat | a < SLOTS && b < SLOTS && h.chains[a] != [] && w.dir[a].name == w.dir[b].name
      ensures a == b
    {
      assert SlotOk(v.dir, g, a) && SlotOk(v.dir, g, b);
    }
    forall a: nat | a < SLOTS && a != k ensures SameFile(v, g, w, h, a) { ChainInBlocks(v, g, a); }
  }

  /** With size 0 the new file is complete. */
  lemma CreateIsEmptyFile(v: Vol, g: Shape, k: nat, dentry: Dentry, w: Vol, h: Shape)
    requires WellFormed(v, g) && Created(v, g, k, dentry, w, h) && !Live(g, k) && dentry.size == 0
    requires dentry.block < v.total && v.table[dentry.block] == FREE_BLOCK
    requires LegalName(dentry.name) && dentry.name !in Files(v, g)
    ensures Emptied(v, g, k, w, h)
  {
    CreateKeepsCore(v, g, k, dentry, w, h);
    forall a: nat | a < SLOTS ensures Sized(w.dir, h, a) { assert Sized(v.dir, g, a); }
    FilesUpdated(v, g, w, h, k);
  }

  /** The table once the chain of slot k ends after m blocks and the rest is free. */
  ghost function CutTable(t: seq<u32>, c: seq<u32>, m: nat): (r: seq<u32>)
    requires m <= |c| && (m > 0 ==> c[m - 1] < |t|)
    ensures |r| == |t|
  {
    Freed(if m == 0 then t else t[c[m - 1] := LAST_BLOCK], c[m..])
  }

  lemma ChainFacts(t: seq<u32>, total: nat, g: Shape, k: nat)
    requires Links(t, total, g) && k < SLOTS
    ensures forall i :: 0 <= i < |g.chains[k]| ==> 0 < g.chains[k][i] < total && t[g.chains[k][i]] != FREE_BLOCK
    ensures forall i, j :: 0 <= i < j < |g.chains[k]| ==> g.chains[k][i] != g.chains[k][j]
  {
    ChainsArePartitioned(t, total, g);
  }

  lemma TailSize(c: seq<u32>, m: nat, gone: set<u32>)
    requires m <= |c| && forall i, j :: 0 <= i < j < |c| ==> c[i] != c[j]
    requires forall e :: e in gone <==> e in c[m..]
    ensures |gone| == |c| - m
  {
    DistinctSize(c[m..], gone);
  }

  lemma CutFreeSet(t: seq<u32>, total: nat, c: seq<u32>, m: nat, e: u32)
    requires total <= |t| && m <= |c| && forall i :: 0 <= i < |c| ==> 0 < c[i] < total && t[c[i]] != FREE_BLOCK
    requires 0 < e < total
    ensures CutTable(t, c, m)[e] == FREE_BLOCK <==> t[e] == FREE_BLOCK || e in c[m..]
    ensures e in c[m..] ==> t[e] != FREE_BLOCK
  {
    if e in c[m..] {
      var i: nat :| i < |c| - m && c[m..][i] == e;
      assert c[m + i] == e;
    }
  }

  ghost function Elements(c: seq<u32>): set<u32> {
    set e | e in c
  }

  /** Cutting a chain frees exactly the blocks dropped. */
  lemma CutFreesTail(t: seq<u32>, total: nat, g: Shape, k: nat, m: nat)
    requires Links(t, total, g) && k < SLOTS && m <= |g.chains[k]|
    ensures m > 0 ==> g.chains[k][m - 1] < |t|
    ensures FreeSet(CutTable(t, g.chains[k], m), total) == FreeSet(t, total) + Elements(g.chains[k][m..])
    ensures FreeSet(t, total) !! Elements(g.chains[k][m..])
  {
    var c := g.chains[k];
    ChainFacts(t, total, g, k);
    hide CutTable, Links;
    var t', gone := CutTable(t, c, m), c[m..];
    forall e: u32 | 0 < e < total
      ensures t'[e] == FREE_BLOCK <==> t[e] == FREE_BLOCK || e in gone
      ensures e in gone ==> t[e] != FREE_BLOCK
    {
      CutFreeSet(t, total, c, m, e);
    }
    forall e | e in gone ensures 0 < e < total {
      var i: nat :| i < |c| - m && gone[i] == e;
      assert c[m + i] == e;
    }
  }

  /** The free count rises by exactly the number of blocks dropped. */
  lemma CutFrees(t: seq<u32>, total: nat, g: Shape, k: nat, m: nat)
    requires Links(t, total, g) && k < SLOTS && m <= |g.chains[k]|
    ensures m > 0 ==> g.chains[k][m - 1] < |t|
    ensures |FreeSet(CutTable(t, g.chains[k], m), total)| == |FreeSet(t, total)| + |g.chains[k]| - m
  {
    ChainFacts(t, total, g, k);
    CutFreesTail(t, total, g, k, m);
    TailSize(g.chains[k], m, Elements(g.chains[k][m..]));
  }

  /** Freeing all of a chain and clearing its slot removes the file; nothing else changes. */
  lemma RemoveIsMinus(v: Vol, g: Shape, k: nat, w: Vol)
    requires WellFormed(v, g) && k < SLOTS && Live(g, k)
    requires w == v.(table := CutTable(v.table, g.chains[k], 0), dir := v.dir[k := EMPTY_DENTRY])
    ensures Removed(v, g, k, w, Cut(g, k, 0))
  {
    var h := Cut(g, k, 0);
    CutKeepsLinks(v.table, v.total, g, k, 0, w.table);
    forall a: nat | a < SLOTS ensures SlotOk(w.dir, h, a) && Sized(w.dir, h, a) {
      assert SlotOk(v.dir, g, a) && Sized(v.dir, g, a);
    }
    forall a: nat, b: nat | a < SLOTS && b < SLOTS && h.chains[a] != [] && w.dir[a].name == w.dir[b].name
      ensures a == b
    {
      assert SlotOk(v.dir, g, a);
    }
    forall a: nat | a < SLOTS && a != k ensures SameFile(v, g, w, h, a) { ChainInBlocks(v, g, a); }
    FilesRemoved(v, g, w, h, k);
    CutFrees(v.table, v.total, g, k, 0);
  }

  /** Keeping only the first block and recording size 0 empties the file; nothing else changes. */
  lemma TruncateIsEmpty(v: Vol, g: Shape, k: nat, w: Vol)
    requires WellFormed(v, g) && k < SLOTS && Live(g, k) && g.chains[k][0] < |v.table|
    requires w == v.(table := CutTable(v.table, g.chains[k], 1), dir := v.dir[k := v.dir[k].(size := 0)])
    ensures Emptied(v, g, k, w, Cut(g, k, 1))
  {
    var h := Cut(g, k, 1);
    CutKeepsLinks(v.table, v.total, g, k, 1, w.table);
    forall a: nat | a < SLOTS ensures SlotOk(w.dir, h, a) && Sized(w.dir, h, a) {
      assert SlotOk(v.dir, g, a) && Sized(v.dir, g, a);
    }
    forall a: nat | a < SLOTS && a != k ensures SameFile(v, g, w, h, a) { ChainInBlocks(v, g, a); }
    FilesUpdated(v, g, w, h, k);
    assert SlotOk(w.dir, h, k) && SlotOk(v.dir, g, k);
    CutFrees(v.table, v.total, g, k, 1);
  }

  /** What the freeing loop relies on: with the first m (0 or 1) blocks kept, the rest can be walked. */
  lemma TailIsWalk(v: Vol, g: Shape, k: nat, m: nat)
    requires WellFormed(v, g) && Live(g, k) && m <= 1
    ensures k < SLOTS == |v.dir| == |g.chains| && g.chains[k] != []
    ensures v.dir[k].block == g.chains[k][0] < |v.table|
    ensures v.table[g.chains[k][0]] == if |g.chains[k]| > 1 then g.chains[k][1] else LAST_BLOCK
    ensures Walk(if m == 0 then v.table else v.table[g.chains[k][0] := LAST_BLOCK], g.chains[k][m..])
    ensures forall i, j :: 0 <= i < j < |g.chains[k][m..]| ==> g.chains[k][m..][i] != g.chains[k][m..][j]
    ensures g.chains[k][0] < v.total && v.table[g.chains[k][0]] != FREE_BLOCK
    ensures forall i :: 0 <= i < |g.chains[k][m..]| ==> g.chains[k][m..][i] < v.total
  {
    var t, c := v.table, g.chains[k];
    ChainFacts(t, v.total, g, k);
    assert SlotOk(v.dir, g, k);
    assert InPlace(t, v.total, g, k, 0);
    var t', d := if m == 0 then t else t[c[0] := LAST_BLOCK], c[m..];
    forall i: nat | i < |d| ensures d[i] < |t'| < LAST_BLOCK && t'[d[i]] == Next(d, i) {
      assert d[i] == c[m + i];
      assert InPlace(t, v.total, g, k, m + i);
    }
  }

  lemma EmptiedIsWellFormed(v: Vol, g: Shape, k: nat, w: Vol, h: Shape)
    requires Emptied(v, g, k, w, h)
    ensures WellFormed(w, h) && k < SLOTS == |w.dir| && Live(h, k)
    ensures w.dir[k].block == h.chains[k][0] && w.dir[k].size == 0
  {
  }

  lemma RemovedIsWellFormed(v: Vol, g: Shape, k: nat, w: Vol, h: Shape)
    requires Removed(v, g, k, w, h)
    ensures WellFormed(w, h)
  {
  }

  /** Only data blocks can be claimed: entry 0 and the padding are in use. */
  lemma AllocatesFree(v: Vol, g: Shape)
    requires WellFormed(v, g)
    ensures FreeSet(v.table, v.total) == {} <==> forall e :: 0 <= e < |v.table| ==> v.table[e] != FREE_BLOCK
    ensures forall e: u32 :: e < |v.table| && v.table[e] == FREE_BLOCK ==> 0 < e < v.total
    ensures |g.chains| == SLOTS == |v.dir|
    ensures forall k: nat :: k < SLOTS ==> (v.dir[k].block == FREE_BLOCK <==> !Live(g, k))
  {
    if FreeSet(v.table, v.total) == {} {
      forall e: u32 | e < |v.table| ensures v.table[e] != FREE_BLOCK { assert e !in FreeSet(v.table, v.total); }
    }
    forall k: nat | k < SLOTS ensures v.dir[k].block == FREE_BLOCK <==> !Live(g, k) { FreeSlot(v, g, k); }
  }
}
