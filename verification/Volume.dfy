/**
 The on-disk structure as a value: a table of 32-bit links, 4096-byte blocks and the
 128 slots of the root directory, together with the shape that gives it meaning.
 */
module Volume {
  import opened Types

  const LAST_BLOCK: u32 := 0xFFFF_FFFF
  const FREE_BLOCK: u32 := 0
  const BLOCK_SIZE := 4096
  const SLOTS := 128
  const ENTRIES_PER_SECTOR := 128
  const MAX_NAME := 23

  type Block = b: seq<byte> | |b| == BLOCK_SIZE witness seq(BLOCK_SIZE, _ => 0)

  datatype Dentry = Dentry(name: string, size: u32, block: u32)

  const EMPTY_DENTRY := Dentry("", 0, FREE_BLOCK)

  datatype Vol = Vol(table: seq<u32>, total: nat, blocks: seq<Block>, dir: seq<Dentry>)

  /** Where a block sits: the directory slot of its file and its index in that file's chain. */
  datatype Pos = Pos(slot: nat, at: nat)

  /** The chains that a link table encodes, one per directory slot (empty for a free slot),
      and the inverse of that assignment. */
  datatype Shape = Shape(chains: seq<seq<u32>>, owner: map<u32, Pos>)

  /** The link that belongs at position i of chain c. */
  function Next(c: seq<u32>, i: nat): u32 {
    if i + 1 < |c| then c[i + 1] else LAST_BLOCK
  }

  ghost predicate InPlace(t: seq<u32>, total: nat, g: Shape, a: nat, i: nat)
    requires a < |g.chains| && i < |g.chains[a]| && total <= |t|
  {
    var e := g.chains[a][i];
    0 < e < total && e in g.owner && g.owner[e] == Pos(a, i) && t[e] == Next(g.chains[a], i)
  }

  ghost predicate Owned(total: nat, g: Shape, e: u32)
    requires e in g.owner
  {
    var p := g.owner[e];
    0 < e < total && p.slot < |g.chains| && p.at < |g.chains[p.slot]| && g.chains[p.slot][p.at] == e
  }

  /** The table encodes exactly the chains of g: every chain element carries the right link and
      is owned by its position only, every used entry is in a chain, entry 0 is reserved and the
      entries past the last block are marked as used. */
  ghost predicate Links(t: seq<u32>, total: nat, g: Shape) {
    && 0 < total <= |t| < LAST_BLOCK
    && |g.chains| == SLOTS
    && t[0] != FREE_BLOCK
    && (forall e :: total <= e < |t| ==> t[e] != FREE_BLOCK)
    && (forall e: u32 :: 0 < e < total ==> (e in g.owner <==> t[e] != FREE_BLOCK))
    && (forall e :: e in g.owner ==> Owned(total, g, e))
    && (forall a: nat, i: nat {:trigger InPlace(t, total, g, a, i)} ::
          a < SLOTS && i < |g.chains[a]| ==> InPlace(t, total, g, a, i))
  }

  predicate LegalName(name: string) {
    0 < |name| <= MAX_NAME
  }

  /** A slot is free, or names a chain. */
  ghost predicate SlotOk(dir: seq<Dentry>, g: Shape, a: nat)
    requires a < |dir| && a < |g.chains|
  {
    if g.chains[a] == [] then dir[a] == EMPTY_DENTRY
    else dir[a].block == g.chains[a][0] && LegalName(dir[a].name)
  }

  /** The directory lists exactly the chains of g, under pairwise different names. */
  ghost predicate Directory(dir: seq<Dentry>, g: Shape) {
    && |dir| == SLOTS && |g.chains| == SLOTS
    && (forall a: nat :: a < SLOTS ==> SlotOk(dir, g, a))
    && (forall a: nat, b: nat :: a < SLOTS && b < SLOTS && g.chains[a] != [] && dir[a].name == dir[b].name ==> a == b)
  }

  function BlocksFor(size: nat): nat {
    if size == 0 then 1 else (size + BLOCK_SIZE - 1) / BLOCK_SIZE
  }

  ghost predicate Sized(dir: seq<Dentry>, g: Shape, a: nat)
    requires a < |dir| && a < |g.chains|
  {
    g.chains[a] != [] ==> |g.chains[a]| == BlocksFor(dir[a].size)
  }

  /** Links and directory agree; file sizes may be in flux. */
  ghost predicate Core(v: Vol, g: Shape) {
    Links(v.table, v.total, g) && Directory(v.dir, g) && |v.blocks| == v.total
  }

  ghost predicate WellFormed(v: Vol, g: Shape) {
    Core(v, g) && forall a: nat :: a < SLOTS ==> Sized(v.dir, g, a)
  }

  // ----- contents -----

  ghost predicate InBlocks(c: seq<u32>, n: nat) {
    forall i :: 0 <= i < |c| ==> c[i] < n
  }

  function ByteAt(blocks: seq<Block>, c: seq<u32>, p: nat): byte
    requires p < BLOCK_SIZE * |c| && c[p / BLOCK_SIZE] < |blocks|
  {
    blocks[c[p / BLOCK_SIZE]][p % BLOCK_SIZE]
  }

  /** All bytes of a chain's blocks, in chain order. */
  ghost function Raw(blocks: seq<Block>, c: seq<u32>): (r: seq<byte>)
    requires InBlocks(c, |blocks|)
    ensures |r| == BLOCK_SIZE * |c|
  {
    seq(BLOCK_SIZE * |c|, p requires 0 <= p < BLOCK_SIZE * |c| => ByteAt(blocks, c, p))
  }

  lemma ChainInBlocks(v: Vol, g: Shape, a: nat)
    requires Core(v, g) && a < SLOTS
    ensures InBlocks(g.chains[a], |v.blocks|)
  {
    forall i | 0 <= i < |g.chains[a]| ensures g.chains[a][i] < |v.blocks| {
      assert InPlace(v.table, v.total, g, a, i);
    }
  }

  /** The bytes of the file in slot a. */
  ghost function Contents(v: Vol, g: Shape, a: nat): (r: seq<byte>)
    requires WellFormed(v, g) && a < SLOTS && g.chains[a] != []
    ensures |r| == v.dir[a].size
  {
    ChainInBlocks(v, g, a);
    assert Sized(v.dir, g, a);
    Raw(v.blocks, g.chains[a])[..v.dir[a].size]
  }

  // ----- the three ways a table changes -----

  ghost function Start(g: Shape, k: nat, e: u32): Shape
    requires k < |g.chains|
  {
    Shape(g.chains[k := [e]], g.owner[e := Pos(k, 0)])
  }

  ghost function Append(g: Shape, k: nat, e: u32): Shape
    requires k < |g.chains|
  {
    Shape(g.chains[k := g.chains[k] + [e]], g.owner[e := Pos(k, |g.chains[k]|)])
  }

  ghost function Cut(g: Shape, k: nat, m: nat): Shape
    requires k < |g.chains| && m <= |g.chains[k]|
  {
    Shape(g.chains[k := g.chains[k][..m]], map e | e in g.owner && !(g.owner[e].slot == k && g.owner[e].at >= m) ::
        g.owner[e])
  }

  /** Claiming a free entry for an empty slot starts a one-block chain. */
  lemma StartKeepsLinks(t: seq<u32>, total: nat, g: Shape, k: nat, e: u32)
    requires Links(t, total, g) && k < SLOTS && g.chains[k] == [] && 0 < e < total && t[e] == FREE_BLOCK
    ensures Links(t[e := LAST_BLOCK], total, Start(g, k, e))
  {
    var t', g' := t[e := LAST_BLOCK], Start(g, k, e);
    forall a: nat, i: nat | a < SLOTS && i < |g'.chains[a]| ensures InPlace(t', total, g', a, i) {
      if a != k {
        assert InPlace(t, total, g, a, i);
      }
    }
    forall x | x in g'.owner ensures Owned(total, g', x) {
      if x != e { assert Owned(total, g, x); }
    }
  }

  /** Claiming a free entry and linking it behind the last block lengthens one chain. */
  lemma AppendKeepsLinks(t: seq<u32>, total: nat, g: Shape, k: nat, e: u32)
    requires Links(t, total, g) && k < SLOTS && g.chains[k] != [] && 0 < e < total && t[e] == FREE_BLOCK
    ensures g.chains[k][|g.chains[k]| - 1] < |t|
    ensures Links(t[e := LAST_BLOCK][g.chains[k][|g.chains[k]| - 1] := e], total, Append(g, k, e))
  {
    var n := |g.chains[k]|;
    assert InPlace(t, total, g, k, n - 1);
    var l := g.chains[k][n - 1];
    var t', g' := t[e := LAST_BLOCK][l := e], Append(g, k, e);
    forall a: nat, i: nat | a < SLOTS && i < |g'.chains[a]| ensures InPlace(t', total, g', a, i) {
      if a != k || i < n {
        assert InPlace(t, total, g, a, i);
      }
    }
    forall x | x in g'.owner ensures Owned(total, g', x) {
      if x != e { assert Owned(total, g, x); }
    }
  }

  /** The table after every entry of c has been freed. */
  function Freed(t: seq<u32>, c: seq<u32>): (r: seq<u32>)
    ensures |r| == |t|
  {
    seq(|t|, e requires 0 <= e < |t| => if e in c then FREE_BLOCK else t[e])
  }

  /** Freeing everything behind position m, and ending the chain there, shortens one chain. */
  lemma CutKeepsLinks(t: seq<u32>, total: nat, g: Shape, k: nat, m: nat, t': seq<u32>)
    requires Links(t, total, g) && k < SLOTS && m <= |g.chains[k]|
    requires t' == Freed(if m == 0 then t
                         else if g.chains[k][m - 1] < |t| then t[g.chains[k][m - 1] := LAST_BLOCK] else t,
                         g.chains[k][m..])
    ensures Links(t', total, Cut(g, k, m))
  {
    var c, g' := g.chains[k], Cut(g, k, m);
    if m > 0 { assert InPlace(t, total, g, k, m - 1); }
    forall x: u32 | x in c[m..] ensures 0 < x < total && x !in g'.owner {
      var i :| m <= i < |c| && c[i] == x;
      assert InPlace(t, total, g, k, i);
    }
    forall a: nat, i: nat | a < SLOTS && i < |g'.chains[a]| ensures InPlace(t', total, g', a, i) {
      assert g'.chains[a][i] == g.chains[a][i];
      assert InPlace(t, total, g, a, i);
    }
    forall x | x in g'.owner ensures Owned(total, g', x) {
      assert Owned(total, g, x);
    }
    forall x: u32 | 0 < x < total ensures x in g'.owner <==> t'[x] != FREE_BLOCK {
      if x in g.owner {
        assert Owned(total, g, x);
        assert InPlace(t, total, g, g.owner[x].slot, g.owner[x].at);
        if x !in g'.owner {
          assert c[m..][g.owner[x].at - m] == x;
        }
      }
    }
  }
}
