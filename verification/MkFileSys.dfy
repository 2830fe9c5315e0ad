/** mkimage/mkfilesys.c: the host tool that puts files on a formatted image, with code of its own. */
module MkFileSys {
  import opened Types
  import opened Volume
  import opened VolumeFacts
  import opened VolumeSteps
  import opened FileSystem
  import opened WriteProgress

  datatype SourceFile = SourceFile(path: string, data: seq<byte>)

  /** The blocks whose byte offset in the data region fits 32 bits. */
  const REACHABLE := 0x10_0000

  /** The block that a write for `block` goes to. */
  function Landing(block: u32): nat {
    Wrap(block * BLOCK_SIZE) / BLOCK_SIZE
  }

  /** It is the block itself exactly below REACHABLE. */
  lemma LandsInPlace(block: u32)
    ensures Landing(block) <= block && Landing(block) < REACHABLE
    ensures Landing(block) == block <==> block < REACHABLE
  {
  }

  /** What follows the last '/' of a path. */
  function BaseName(path: string): string {
    if '/' in path then BaseName(path[1..]) else path
  }

  lemma {:induction false} BaseNameSnoc(path: string, c: char)
    ensures BaseName(path + [c]) == if c == '/' then "" else BaseName(path) + [c]
  {
    if path == [] {
      assert path + [c] == [c];
      assert [c][1..] == [];
      if c == '/' { assert '/' in [c]; assert BaseName([c]) == BaseName([]); }
    } else {
      assert (path + [c])[1..] == path[1..] + [c];
      assert '/' in path + [c] <==> '/' in path || c == '/';
      BaseNameSnoc(path[1..], c);
      if '/' !in path && c == '/' { assert '/' !in path[1..]; }
    }
  }

  lemma NoBaseName()
    ensures BaseName("") == ""
  {
  }

  /** So it is the path itself if that has no '/', and whatever stands behind the last one otherwise. */
  lemma {:induction false} BaseNameIsTail(dirs: string, name: string)
    requires '/' !in name
    ensures BaseName(name) == name && BaseName(dirs + ['/'] + name) == name
  {
    var path := dirs + ['/'] + name;
    assert path[|dirs|] == '/';
    if dirs == [] {
      assert path[1..] == name;
    } else {
      assert path[1..] == dirs[1..] + ['/'] + name;
      BaseNameIsTail(dirs[1..], name);
    }
  }

  /** The loop in update_dentry that strips the directories off a path. */
  method StripDirectories(path: string) returns (name: string)
    ensures name == BaseName(path)
  {
    hide BaseName;
    var start := 0;
    NoBaseName();
    for i := 0 to |path|
      invariant start <= i && path[start..i] == BaseName(path[..i])
    {
      BaseNameSnoc(path[..i], path[i]);
      assert path[..i + 1] == path[..i] + [path[i]];
      assert path[start..i + 1] == path[start..i] + [path[i]];
      if path[i] == '/' {
        start := i + 1;
      }
    }
    assert path[..|path|] == path;
    return path[start..];
  }

  class Image {
    const meta: array<u32>
    const dentries: array<Dentry>
    var blocks: seq<Block>
    var total: nat
    ghost var shape: Shape

    ghost function Disk(): Vol
      reads this, meta, dentries
    {
      Volume.Vol(meta[..], total, blocks, dentries[..])
    }

    ghost predicate Valid()
      reads this, meta, dentries
    {
      WellFormed(Disk(), shape)
    }

    constructor (m: array<u32>, d: array<Dentry>, b: seq<Block>, n: nat, ghost g: Shape)
      requires WellFormed(Volume.Vol(m[..], n, b, d[..]), g)
      ensures Valid() && meta == m && dentries == d && blocks == b && total == n && shape == g
    {
      meta, dentries, blocks, total, shape := m, d, b, n, g;
    }

    /** alloc_block: the first free entry of the whole table, or -1; predecessor 0 means none. */
    method AllocBlock(prev: u32) returns (r: int)
      requires prev < meta.Length < LAST_BLOCK && meta[prev] != FREE_BLOCK
      modifies meta
      ensures r == -1 <==> forall e :: 0 <= e < meta.Length ==> old(meta[e]) != FREE_BLOCK
      ensures r == -1 ==> meta[..] == old(meta[..])
      ensures r != -1 ==> 0 <= r < meta.Length && old(meta[r]) == FREE_BLOCK
      ensures r != -1 ==> forall e :: 0 <= e < r ==> old(meta[e]) != FREE_BLOCK
      ensures r != -1 ==> meta[..] == Claimed(old(meta[..]), r, if prev == 0 then LAST_BLOCK else prev)
    {
      var i := 0;
      while i < meta.Length
        invariant i <= meta.Length && meta[..] == old(meta[..])
        invariant forall e :: 0 <= e < i ==> meta[e] != FREE_BLOCK
      {
        if meta[i] == FREE_BLOCK {
          if prev != 0 {
            meta[prev] := i;
          }
          meta[i] := LAST_BLOCK;
          return i;
        }
        i := i + 1;
      }
      return -1;
    }

    /** update_dentry: enters the file into the first free slot, or fails if there is none. */
    method UpdateDentry(path: string, size: u32, block: u32) returns (r: int, ghost k: nat)
      requires dentries.Length == SLOTS
      modifies dentries
      ensures r == 0 || r == -1
      ensures r == -1 <==> forall i :: 0 <= i < SLOTS ==> old(dentries[i]).block != FREE_BLOCK
      ensures r == 0 ==> k < SLOTS && old(dentries[k]).block == FREE_BLOCK
                         && dentries[..] == old(dentries[..])[k := Dentry(BaseName(path), size, block)]
    {
      var name := StripDirectories(path);
      var pos := 0;
      k := 0;
      while pos < SLOTS
        invariant pos <= SLOTS && dentries[..] == old(dentries[..])
        invariant forall i :: 0 <= i < pos ==> dentries[i].block != FREE_BLOCK
      {
        if dentries[pos].block == FREE_BLOCK {
          dentries[pos] := Dentry(name, size, block);
          return 0, pos;
        }
        pos := pos + 1;
      }
      return -1, k;
    }

    /** Writes the piece through the image file, at the 32-bit product of block index and block size. */
    method WriteToImage(block: u32, piece: seq<byte>)
      requires block < |blocks| && |piece| <= BLOCK_SIZE
      modifies this`blocks
      ensures Landing(block) < |old(blocks)|
      ensures blocks == old(blocks)[Landing(block) := piece + old(blocks)[Landing(block)][|piece|..]]
    {
      LandsInPlace(block);
      var at := Wrap(block * BLOCK_SIZE) / BLOCK_SIZE;
      blocks := blocks[at := piece + blocks[at][|piece|..]];
    }

    /** One round of the copy loop in main: claim a block behind the previous one, enter the file into
        the directory if it is its first, and write the next piece of the file. */
    method CopyRound(file: SourceFile, written: nat, prev: u32, ghost v: Vol, ghost g: Shape, ghost k0: nat)
      returns (block: u32, piece: nat, ghost k: nat)
      requires if written == 0 then prev == 0 && CanAdd(v, g, file) && v == Disk() && g == shape
               else Copying(v, g, k0, file, written, prev, Disk(), shape)
      requires written < |file.data| && meta.Length < LAST_BLOCK
      modifies this`blocks, this`shape, meta, dentries
      ensures 0 < piece <= |file.data| - written && (written > 0 ==> k == k0)
      ensures Copying(v, g, k, file, written + piece, block, Disk(), shape)
      ensures meta.Length < LAST_BLOCK && total == old(total)
    {
      hide WellFormed, CanAdd, Copying, Ready, Live, Start, Append, Claimed, Files, BaseName, Landing, Deposited;
      piece := Min(|file.data| - written, BLOCK_SIZE);
      k := k0;
      ghost var u, h := Disk(), shape;
      CanClaim(v, g, k, file, written, prev, u, h);
      var claimed := AllocBlock(prev);
      block := claimed;
      if written == 0 {
        var r;
        r, k := UpdateDentry(file.path, |file.data|, block);
        shape := Start(h, k, block);
        FirstRound(v, g, k, file, block, Disk(), shape);
      } else {
        shape := Append(h, k, block);
        NextRound(v, g, k, file, written, prev, u, h, block, Disk());
      }
      ghost var ready := Disk();
      ReadyBlock(v, g, k, file, written, block, ready, shape);
      WriteToImage(block, file.data[written..written + piece]);
      WriteRound(v, g, k, file, written, piece, block, ready, shape, Disk());
    }

    /** What main does with one source file.  Table and directory are always as they should be; the file is there, and
        the others are untouched, if its blocks are among the low ones. */
    method AddFile(file: SourceFile) returns (ghost k: nat)
      requires Valid() && (file.data == [] || CanAdd(Disk(), shape, file))
      modifies this`blocks, this`shape, meta, dentries
      ensures Valid() && total <= meta.Length && old(total) <= meta.Length
      ensures |FreeSet(meta[..], total)| == |old(FreeSet(meta[..], total))| - Need(file)
      ensures file.data != [] ==> Copied(old(Disk()), old(shape), k, file, Disk(), shape)
      ensures Need(file) <= |old(LowFree(meta[..], total))| ==>
                && Files(Disk(), shape) == Added(old(Files(Disk(), shape)), file)
                && |LowFree(meta[..], total)| == |old(LowFree(meta[..], total))| - Need(file)
    {
      hide WellFormed, CanAdd, Copying, Files, BaseName, BlocksFor, LowFree;
      var written, block := 0, 0;
      TableFits(Disk(), shape);
      ghost var v, g := Disk(), shape;
      k := 0;
      while written < |file.data|
        invariant written <= |file.data| && meta.Length < LAST_BLOCK
        invariant if written == 0 then block == 0 && v == Disk() && g == shape
                    && (file.data == [] || CanAdd(v, g, file))
                  else Copying(v, g, k, file, written, block, Disk(), shape)
      {
        var piece;
        block, piece, k := CopyRound(file, written, block, v, g, k);
        written := written + piece;
      }
      if file.data != [] {
        CopyDone(v, g, k, file, block, Disk(), shape);
      }
    }

    /** main: the files named on the command line, one after the other. */
    method AddFiles(files: seq<SourceFile>)
      requires Valid() && total <= meta.Length && Fit(files, Files(Disk(), shape), |LowFree(meta[..], total)|)
      modifies this`blocks, this`shape, meta, dentries
      ensures Valid()
      ensures Files(Disk(), shape) == AllAdded(old(Files(Disk(), shape)), files)
    {
      hide WellFormed, CanAdd, Files, LowFree, Copied;
      for i := 0 to |files|
        invariant Valid() && total <= meta.Length
        invariant AllAdded(Files(Disk(), shape), files[i..]) == AllAdded(old(Files(Disk(), shape)), files)
        invariant Fit(files[i..], Files(Disk(), shape), |LowFree(meta[..], total)|)
      {
        assert files[i..][0] == files[i] && files[i..][1..] == files[i + 1..];
        if files[i].data != [] { FitCanAdd(Disk(), shape, files[i]); }
        ghost var k := AddFile(files[i]);
      }
    }
  }

  /** The files once this one is there too; an empty file leaves no trace. */
  function Added(m: map<string, seq<byte>>, file: SourceFile): map<string, seq<byte>> {
    if file.data == [] then m else m[BaseName(file.path) := file.data]
  }

  function AllAdded(m: map<string, seq<byte>>, files: seq<SourceFile>): map<string, seq<byte>>
    decreases files
  {
    if files == [] then m else AllAdded(Added(m, files[0]), files[1..])
  }

  /** Files that fit are all there afterwards, each under its base name, beside those that were there before, and no
      others. */
  lemma {:induction false} FilesAreThere(files: seq<SourceFile>, m: map<string, seq<byte>>, low: nat)
    requires Fit(files, m, low)
    ensures forall i :: 0 <= i < |files| && files[i].data != [] ==>
              && LegalName(BaseName(files[i].path)) && BaseName(files[i].path) in AllAdded(m, files)
              && AllAdded(m, files)[BaseName(files[i].path)] == files[i].data
    ensures forall n :: n in m ==> n in AllAdded(m, files) && AllAdded(m, files)[n] == m[n]
    ensures forall n :: n in AllAdded(m, files) && n !in m ==>
              exists i :: 0 <= i < |files| && files[i].data != [] && BaseName(files[i].path) == n
    decreases files
  {
    hide BaseName, LegalName;
    if files != [] {
      var more, rest := Added(m, files[0]), files[1..];
      FilesAreThere(rest, more, low - Need(files[0]));
      forall i | 0 <= i < |files| && files[i].data != []
        ensures LegalName(BaseName(files[i].path)) && BaseName(files[i].path) in AllAdded(m, files)
        ensures AllAdded(m, files)[BaseName(files[i].path)] == files[i].data
      {
        if i > 0 { assert files[i] == rest[i - 1]; }
      }
      forall n | n in AllAdded(m, files) && n !in m
        ensures exists i :: 0 <= i < |files| && files[i].data != [] && BaseName(files[i].path) == n
      {
        if n !in more {
          var i :| 0 <= i < |rest| && rest[i].data != [] && BaseName(rest[i].path) == n;
          assert files[i + 1] == rest[i];
        }
      }
    }
  }

  function Need(file: SourceFile): nat {
    if file.data == [] then 0 else BlocksFor(|file.data|)
  }

  /** Free blocks that the tool can reach. */
  ghost function LowFree(t: seq<u32>, total: nat): set<u32>
    requires total <= |t|
  {
    set e | e in FreeSet(t, total) && e < REACHABLE
  }

  /** The files can all go on an image that holds m and has `low` free blocks within reach. */
  ghost predicate Fit(files: seq<SourceFile>, m: map<string, seq<byte>>, low: nat)
    decreases files
  {
    files == [] || (FitsNext(files[0], m, low) && Fit(files[1..], Added(m, files[0]), low - Need(files[0])))
  }

  ghost predicate FitsNext(file: SourceFile, m: map<string, seq<byte>>, low: nat) {
    file.data != [] ==>
      && LegalName(BaseName(file.path)) && BaseName(file.path) !in m && |m| < SLOTS
      && |file.data| <= 0xFFFF_FFFF && Need(file) <= low
  }

  lemma TableFits(v: Vol, g: Shape)
    requires WellFormed(v, g)
    ensures v.total <= |v.table| < LAST_BLOCK
  {
  }

  lemma SubsetSize<T>(a: set<T>, b: set<T>)
    requires a <= b
    ensures |a| <= |b|
  {
    assert b == a + (b - a);
  }

  lemma FitCanAdd(v: Vol, g: Shape, file: SourceFile)
    requires WellFormed(v, g) && v.total <= |v.table|
    requires FitsNext(file, Files(v, g), |LowFree(v.table, v.total)|) && file.data != []
    ensures CanAdd(v, g, file)
  {
    SubsetSize(LowFree(v.table, v.total), FreeSet(v.table, v.total));
    if forall k: nat :: k < SLOTS ==> Live(g, k) {
      FullDirectory(v, g);
    }
  }

  /** What it takes to put a file on the image: a legal, unused base name, a free slot, enough free blocks. */
  ghost predicate CanAdd(v: Vol, g: Shape, file: SourceFile) {
    && WellFormed(v, g) && LegalName(BaseName(file.path)) && BaseName(file.path) !in Files(v, g)
    && (exists k: nat :: k < SLOTS && !Live(g, k))
    && 0 < |file.data| <= 0xFFFF_FFFF && BlocksFor(|file.data|) <= |FreeSet(v.table, v.total)|
  }

  // ----- the copy loop -----

  /** The blocks once `data` has been written, piece by piece, for the blocks of c. */
  ghost function Deposited(blocks: seq<Block>, c: seq<u32>, data: seq<byte>): (r: seq<Block>)
    requires InBlocks(c, |blocks|) && BLOCK_SIZE * (|c| - 1) < |data| <= BLOCK_SIZE * |c|
    ensures |r| == |blocks|
  {
    if c == [] then blocks
    else
      var n := |c| - 1;
      LandsInPlace(c[n]);
      Land(Deposited(blocks, c[..n], data[..BLOCK_SIZE * n]), Landing(c[n]), data[BLOCK_SIZE * n..])
  }

  /** The piece at the start of a block. */
  function Land(blocks: seq<Block>, at: nat, piece: seq<byte>): (r: seq<Block>)
    requires at < |blocks| && |piece| <= BLOCK_SIZE
    ensures |r| == |blocks|
  {
    blocks[at := piece + blocks[at][|piece|..]]
  }

  /** Blocks that nothing lands on stay. */
  lemma {:induction false} DepositStays(blocks: seq<Block>, c: seq<u32>, data: seq<byte>, e: nat)
    requires InBlocks(c, |blocks|) && BLOCK_SIZE * (|c| - 1) < |data| <= BLOCK_SIZE * |c|
    requires e < |blocks| && forall i :: 0 <= i < |c| ==> Landing(c[i]) != e
    ensures Deposited(blocks, c, data)[e] == blocks[e]
  {
    if c != [] {
      var n := |c| - 1;
      DepositStays(blocks, c[..n], data[..BLOCK_SIZE * n], e);
    }
  }

  /** For distinct blocks within reach the pieces stand in their blocks. */
  lemma {:induction false} DepositInPlace(blocks: seq<Block>, c: seq<u32>, data: seq<byte>, p: nat)
    requires InBlocks(c, |blocks|) && BLOCK_SIZE * (|c| - 1) < |data| <= BLOCK_SIZE * |c| && p < |data|
    requires forall i :: 0 <= i < |c| ==> c[i] < REACHABLE
    requires forall i, j :: 0 <= i < j < |c| ==> c[i] != c[j]
    ensures ByteAt(Deposited(blocks, c, data), c, p) == data[p]
  {
    var n, b := |c| - 1, p / BLOCK_SIZE;
    var before := Deposited(blocks, c[..n], data[..BLOCK_SIZE * n]);
    LandsInPlace(c[n]);
    if b < n {
      DepositInPlace(blocks, c[..n], data[..BLOCK_SIZE * n], p);
      assert ByteAt(before, c[..n], p) == before[c[b]][p % BLOCK_SIZE];
      assert c[b] != c[n];
    }
  }

  /** c are the lowest free entries of t, in ascending order. */
  ghost predicate Lowest(t: seq<u32>, c: seq<u32>) {
    forall i {:trigger c[i]} :: 0 <= i < |c| ==>
      0 < c[i] < |t| && t[c[i]] == FREE_BLOCK && forall e: u32 :: e < c[i] && t[e] == FREE_BLOCK ==> e in c[..i]
  }

  /** All slots but k have the entries and chains they had. */
  ghost predicate SlotsKept(dir: seq<Dentry>, g: Shape, k: nat, dir': seq<Dentry>, h: Shape) {
    && |dir| == |dir'| == |g.chains| == |h.chains| == SLOTS
    && forall a: nat {:trigger h.chains[a]} :: a < SLOTS && a != k ==> dir'[a] == dir[a] && h.chains[a] == g.chains[a]
  }

  /** The free entries of t' are those of t that c leaves. */
  ghost predicate LeftFree(t: seq<u32>, c: seq<u32>, t': seq<u32>) {
    |t'| == |t| && forall e: u32 :: e < |t| ==> (t'[e] == FREE_BLOCK <==> t[e] == FREE_BLOCK && e !in c)
  }

  /** w is v with the file entered in slot k, under its base name and with a chain of the lowest free entries;
      all other slots have the entries and links they had. */
  ghost predicate Entered(v: Vol, g: Shape, k: nat, file: SourceFile, w: Vol, h: Shape) {
    && CanAdd(v, g, file) && k < SLOTS && !Live(g, k) && Core(w, h) && w.total == v.total
    && SlotsKept(v.dir, g, k, w.dir, h)
    && Live(h, k) && w.dir[k].name == BaseName(file.path) && w.dir[k].size == |file.data|
    && Lowest(v.table, h.chains[k]) && LeftFree(v.table, h.chains[k], w.table)
  }

  /** The first `written` bytes of the file have been written for its chain, whose last block is `last`. */
  ghost predicate Copying(v: Vol, g: Shape, k: nat, file: SourceFile, written: nat, last: u32, w: Vol, h: Shape) {
    && 0 < written <= |file.data| && Entered(v, g, k, file, w, h) && last == h.chains[k][|h.chains[k]| - 1]
    && written == Min(|file.data|, BLOCK_SIZE * |h.chains[k]|) && |h.chains[k]| == BlocksFor(written)
    && InBlocks(h.chains[k], |v.blocks|) && w.blocks == Deposited(v.blocks, h.chains[k], file.data[..written])
  }

  /** A block for the next piece has been claimed as the chain's last, and nothing has been written for it yet. */
  ghost predicate Ready(v: Vol, g: Shape, k: nat, file: SourceFile, written: nat, block: u32, u: Vol, h: Shape) {
    && written < |file.data| && Entered(v, g, k, file, u, h) && block == h.chains[k][|h.chains[k]| - 1]
    && written == BLOCK_SIZE * (|h.chains[k]| - 1)
    && InBlocks(h.chains[k], |v.blocks|)
    && u.blocks == Deposited(v.blocks, h.chains[k][..|h.chains[k]| - 1], file.data[..written])
  }

  lemma FreeEntries(v: Vol, g: Shape)
    requires Core(v, g)
    ensures |v.table| < LAST_BLOCK && v.table[0] != FREE_BLOCK && |v.blocks| == v.total <= |v.table|
    ensures |v.dir| == SLOTS == |g.chains|
    ensures forall e: u32 :: e < |v.table| && v.table[e] == FREE_BLOCK ==> 0 < e < v.total
    ensures |FreeSet(v.table, v.total)| > 0 ==> exists e: u32 :: e < |v.table| && v.table[e] == FREE_BLOCK
    ensures forall k: nat :: k < SLOTS ==> (v.dir[k].block == FREE_BLOCK <==> !Live(g, k))
  {
    if |FreeSet(v.table, v.total)| > 0 {
      var e :| e in FreeSet(v.table, v.total);
    }
    forall k: nat | k < SLOTS ensures v.dir[k].block == FREE_BLOCK <==> !Live(g, k) { FreeSlot(v, g, k); }
  }

  lemma EnteredMeans(v: Vol, g: Shape, k: nat, file: SourceFile, w: Vol, h: Shape)
    requires Entered(v, g, k, file, w, h)
    ensures WellFormed(v, g) && Core(w, h) && k < SLOTS && Live(h, k) && 0 < |file.data| <= 0xFFFF_FFFF
    ensures |v.dir| == |w.dir| == |g.chains| == |h.chains| == SLOTS && w.dir[k].name == BaseName(file.path)
    ensures w.total == v.total <= |v.table| == |w.table| < LAST_BLOCK && |v.blocks| == v.total && |w.blocks| == w.total
    ensures Links(w.table, w.total, h) && Lowest(v.table, h.chains[k]) && LeftFree(v.table, h.chains[k], w.table)
    ensures SlotsKept(v.dir, g, k, w.dir, h)
    ensures forall e: u32 :: e < |v.table| && v.table[e] == FREE_BLOCK ==> 0 < e < v.total
  {
    FreeEntries(v, g);
    FreeEntries(w, h);
  }

  lemma LowestMeans(t: seq<u32>, c: seq<u32>, i: nat)
    requires Lowest(t, c) && i < |c|
    ensures 0 < c[i] < |t| && t[c[i]] == FREE_BLOCK && forall e: u32 :: e < c[i] && t[e] == FREE_BLOCK ==> e in c[..i]
  {
  }

  /** The chain's blocks, and no others, are no longer free. */
  lemma ChainIsTaken(v: Vol, g: Shape, k: nat, file: SourceFile, w: Vol, h: Shape)
    requires Entered(v, g, k, file, w, h)
    ensures v.total <= |v.table| && k < |h.chains| && w.total == v.total <= |w.table|
    ensures FreeSet(w.table, w.total) == FreeSet(v.table, v.total) - Elements(h.chains[k])
    ensures Elements(h.chains[k]) <= FreeSet(v.table, v.total) && |Elements(h.chains[k])| == |h.chains[k]|
    ensures |FreeSet(w.table, w.total)| == |FreeSet(v.table, v.total)| - |h.chains[k]|
    ensures forall i, j :: 0 <= i < j < |h.chains[k]| ==> h.chains[k][i] != h.chains[k][j]
  {
    hide Entered, Core, WellFormed, Links, Lowest;
    EnteredMeans(v, g, k, file, w, h);
    var c := h.chains[k];
    ChainFacts(w.table, w.total, h, k);
    DistinctSize(c, Elements(c));
    forall e | e in Elements(c) ensures e in FreeSet(v.table, v.total) {
      var i :| 0 <= i < |c| && c[i] == e;
      LowestMeans(v.table, c, i);
    }
    var free, left := FreeSet(v.table, v.total), FreeSet(w.table, w.total);
    forall e ensures e in left <==> e in free - Elements(c) {}
    assert left == free - Elements(c);
  }

  /** While anything is left to copy there is a block to claim, and a predecessor to link it to. */
  lemma CanClaim(v: Vol, g: Shape, k: nat, file: SourceFile, written: nat, prev: u32, w: Vol, h: Shape)
    requires if written == 0 then prev == 0 && CanAdd(v, g, file) && w == v && h == g
             else written < |file.data| && Copying(v, g, k, file, written, prev, w, h)
    ensures |w.dir| == SLOTS == |h.chains| && |w.table| < LAST_BLOCK && |w.blocks| == w.total
    ensures prev < |w.table| && w.table[prev] != FREE_BLOCK && (written > 0 ==> prev != 0)
    ensures exists e: u32 :: e < |w.table| && w.table[e] == FREE_BLOCK
    ensures forall e: u32 :: e < |w.table| && w.table[e] == FREE_BLOCK ==> 0 < e < w.total
    ensures written == 0 ==> |file.data| <= 0xFFFF_FFFF && exists k: nat :: k < SLOTS && w.dir[k].block == FREE_BLOCK
    ensures written > 0 ==> k < SLOTS
  {
    hide Links, Directory, Files, Lowest;
    FreeEntries(w, h);
    if written > 0 {
      ChainIsTaken(v, g, k, file, w, h);
      PrevIsUsed(w, h, k);
    }
  }

  lemma PrevIsUsed(v: Vol, g: Shape, k: nat)
    requires Core(v, g) && k < SLOTS && Live(g, k)
    ensures var last := g.chains[k][|g.chains[k]| - 1]; 0 < last < |v.table| && v.table[last] != FREE_BLOCK
  {
    assert InPlace(v.table, v.total, g, k, |g.chains[k]| - 1);
  }

  ghost predicate LowestFree(t: seq<u32>, e: u32) {
    0 < e < |t| && t[e] == FREE_BLOCK && forall x: u32 :: x < e ==> t[x] != FREE_BLOCK
  }

  lemma FirstRound(v: Vol, g: Shape, k: nat, file: SourceFile, block: u32, w: Vol, h: Shape)
    requires CanAdd(v, g, file) && k < SLOTS == |v.dir| && |g.chains| == SLOTS && v.dir[k].block == FREE_BLOCK
    requires LowestFree(v.table, block) && block < v.total && |file.data| <= 0xFFFF_FFFF
    requires w.table == Claimed(v.table, block, LAST_BLOCK) && w.total == v.total && w.blocks == v.blocks
    requires w.dir == v.dir[k := Dentry(BaseName(file.path), |file.data|, block)] && h == Start(g, k, block)
    ensures Ready(v, g, k, file, 0, block, w, h)
  {
    FreeSlot(v, g, k);
    CreateKeepsCore(v, g, k, Dentry(BaseName(file.path), |file.data|, block), w, h);
    assert h.chains[k][..0] == [] && file.data[..0] == [];
  }

  /** Claiming the lowest of what is left takes the next of the lowest. */
  lemma LowestGrows(t: seq<u32>, c: seq<u32>, t': seq<u32>, e: u32)
    requires Lowest(t, c) && LeftFree(t, c, t') && LowestFree(t', e)
    ensures Lowest(t, c + [e])
  {
    var c' := c + [e];
    forall i {:trigger c'[i]} | 0 <= i < |c'|
      ensures 0 < c'[i] < |t| && t[c'[i]] == FREE_BLOCK
      ensures forall x: u32 :: x < c'[i] && t[x] == FREE_BLOCK ==> x in c'[..i]
    {
      if i < |c| {
        assert c'[i] == c[i] && c'[..i] == c[..i];
      } else {
        assert c'[..i] == c;
      }
    }
  }

  lemma NextRound(v: Vol, g: Shape, k: nat, file: SourceFile, written: nat, prev: u32, w: Vol, h: Shape, block: u32,
                  u: Vol)
    requires written < |file.data| && Copying(v, g, k, file, written, prev, w, h) && prev < |w.table| && k < |h.chains|
    requires LowestFree(w.table, block) && block < w.total && u == w.(table := Claimed(w.table, block, prev))
    ensures Ready(v, g, k, file, written, block, u, Append(h, k, block))
  {
    hide Entered, Links, Directory, WellFormed, Core, Lowest, LowestFree, Deposited, Claimed, FreeSet, BlocksFor;
    var c, h' := h.chains[k], Append(h, k, block);
    EnteredMeans(v, g, k, file, w, h);
    PrevIsUsed(w, h, k);
    LowestIsFree(w.table, block);
    GrowKeepsCore(w, h, k, block);
    LowestGrows(v.table, c, w.table, block);
    EntersBlock(v, g, k, file, w, h, block, u);
    WholePieces(|c|, |file.data|, written);
    assert h'.chains[k] == c + [block] && h'.chains[k][..|c|] == c;
  }

  lemma WholePieces(n: nat, size: nat, written: nat)
    requires written == Min(size, BLOCK_SIZE * n) && written < size
    ensures written == BLOCK_SIZE * n
  {
  }

  lemma LowestIsFree(t: seq<u32>, e: u32)
    requires LowestFree(t, e)
    ensures 0 < e < |t| && t[e] == FREE_BLOCK
  {
  }

  lemma LeftFreeClaimed(t: seq<u32>, c: seq<u32>, t': seq<u32>, e: u32, prev: u32)
    requires LeftFree(t, c, t') && 0 < e < |t'| < LAST_BLOCK && t'[e] == FREE_BLOCK && prev < |t'|
    requires t'[prev] != FREE_BLOCK
    ensures LeftFree(t, c + [e], Claimed(t', e, prev))
  {
    var t'' := Claimed(t', e, prev);
    forall x: u32 | x < |t| ensures t''[x] == FREE_BLOCK <==> t[x] == FREE_BLOCK && x !in c + [e] {
      assert x in c + [e] <==> x in c || x == e;
      assert t''[x] == if x == prev then e else if x == e then LAST_BLOCK else t'[x];
    }
  }

  lemma SlotsKeptLonger(dir: seq<Dentry>, g: Shape, k: nat, dir': seq<Dentry>, h: Shape, e: u32)
    requires SlotsKept(dir, g, k, dir', h) && k < SLOTS
    ensures SlotsKept(dir, g, k, dir', Append(h, k, e))
  {
    forall a: nat | a < SLOTS && a != k ensures dir'[a] == dir[a] && Append(h, k, e).chains[a] == g.chains[a] {
      assert h.chains[a] == g.chains[a];
    }
  }

  lemma EntersBlock(v: Vol, g: Shape, k: nat, file: SourceFile, w: Vol, h: Shape, block: u32, u: Vol)
    requires Entered(v, g, k, file, w, h) && 0 < block < w.total && block < |w.table| < LAST_BLOCK && k < |h.chains|
    requires w.table[block] == FREE_BLOCK
    requires h.chains[k][|h.chains[k]| - 1] < |w.table| && w.table[h.chains[k][|h.chains[k]| - 1]] != FREE_BLOCK
    requires u == w.(table := Claimed(w.table, block, h.chains[k][|h.chains[k]| - 1]))
    requires Core(u, Append(h, k, block)) && Lowest(v.table, h.chains[k] + [block])
    ensures Entered(v, g, k, file, u, Append(h, k, block))
  {
    hide Core, WellFormed, CanAdd, Lowest, LeftFree, SlotsKept, Claimed;
    LeftFreeClaimed(v.table, h.chains[k], w.table, block, h.chains[k][|h.chains[k]| - 1]);
    SlotsKeptLonger(v.dir, g, k, w.dir, h, block);
    SlotsOf(v.dir, g, k, w.dir, h);
    assert Append(h, k, block).chains[k] == h.chains[k] + [block];
  }

  lemma SlotsOf(dir: seq<Dentry>, g: Shape, k: nat, dir': seq<Dentry>, h: Shape)
    requires SlotsKept(dir, g, k, dir', h)
    ensures |dir| == |dir'| == |g.chains| == |h.chains| == SLOTS
  {
  }

  lemma ReadyBlock(v: Vol, g: Shape, k: nat, file: SourceFile, written: nat, block: u32, u: Vol, h: Shape)
    requires Ready(v, g, k, file, written, block, u, h)
    ensures block < |u.blocks|
  {
    ChainInBlocks(u, h, k);
  }

  lemma PieceFills(n: nat, size: nat, written: nat, piece: nat)
    requires n > 0 && written == BLOCK_SIZE * (n - 1) < size && piece == Min(size - written, BLOCK_SIZE)
    ensures BlocksFor(written + piece) == n && written + piece == Min(size, BLOCK_SIZE * n)
  {
  }

  lemma CoreStays(u: Vol, h: Shape, w: Vol)
    requires Core(u, h) && w == u.(blocks := w.blocks) && |w.blocks| == |u.blocks|
    ensures Core(w, h)
  {
    hide Links, Directory;
  }

  lemma EnteredStays(v: Vol, g: Shape, k: nat, file: SourceFile, u: Vol, h: Shape, w: Vol)
    requires Entered(v, g, k, file, u, h) && w == u.(blocks := w.blocks) && |w.blocks| == |u.blocks|
    ensures Entered(v, g, k, file, w, h)
  {
    hide Core, CanAdd, Lowest, LeftFree, SlotsKept;
    CoreStays(u, h, w);
    SlotsOf(v.dir, g, k, u.dir, h);
  }

  lemma DepositStep(blocks: seq<Block>, c: seq<u32>, data: seq<byte>)
    requires InBlocks(c, |blocks|) && BLOCK_SIZE * (|c| - 1) < |data| <= BLOCK_SIZE * |c| && c != []
    ensures var n := |c| - 1;
            Landing(c[n]) < |blocks| && Deposited(blocks, c, data)
            == Land(Deposited(blocks, c[..n], data[..BLOCK_SIZE * n]), Landing(c[n]), data[BLOCK_SIZE * n..])
  {
    LandsInPlace(c[|c| - 1]);
  }

  lemma Pieces(data: seq<byte>, written: nat, piece: nat)
    requires written + piece <= |data|
    ensures data[..written + piece][..written] == data[..written]
    ensures data[..written + piece][written..] == data[written..written + piece]
  {
  }

  /** One more piece is one more block. */
  lemma DepositNext(blocks: seq<Block>, c: seq<u32>, data: seq<byte>, written: nat, piece: nat)
    requires InBlocks(c, |blocks|) && c != [] && written == BLOCK_SIZE * (|c| - 1)
    requires 0 < piece <= BLOCK_SIZE && written + piece <= |data|
    ensures Landing(c[|c| - 1]) < |blocks| && Deposited(blocks, c, data[..written + piece])
            == Land(Deposited(blocks, c[..|c| - 1], data[..written]), Landing(c[|c| - 1]),
                data[written..written + piece])
  {
    hide Deposited, Land, Landing;
    Pieces(data, written, piece);
    DepositStep(blocks, c, data[..written + piece]);
  }

  lemma WriteRound(v: Vol, g: Shape, k: nat, file: SourceFile, written: nat, piece: nat, block: u32, u: Vol, h: Shape,
                   w: Vol)
    requires Ready(v, g, k, file, written, block, u, h) && piece == Min(|file.data| - written, BLOCK_SIZE)
    requires written < |file.data| && Landing(block) < |u.blocks|
    requires w == u.(blocks := Land(u.blocks, Landing(block), file.data[written..written + piece]))
    ensures Copying(v, g, k, file, written + piece, block, w, h)
  {
    hide Entered, Core, Links, WellFormed, CanAdd, Lowest, Landing, BlocksFor, Min, Deposited, Land, InBlocks,
        SlotsKept, LeftFree;
    EnteredMeans(v, g, k, file, u, h);
    PieceSize(|file.data| - written, piece);
    PieceFills(|h.chains[k]|, |file.data|, written, piece);
    DepositNext(v.blocks, h.chains[k], file.data, written, piece);
    EnteredStays(v, g, k, file, u, h, w);
  }

  lemma PieceSize(left: nat, piece: nat)
    requires left > 0 && piece == Min(left, BLOCK_SIZE)
    ensures 0 < piece <= left && piece <= BLOCK_SIZE
  {
  }

  /** The whole file has been copied. */
  ghost predicate Copied(v: Vol, g: Shape, k: nat, file: SourceFile, w: Vol, h: Shape) {
    && Entered(v, g, k, file, w, h) && |h.chains[k]| == BlocksFor(|file.data|)
    && InBlocks(h.chains[k], |v.blocks|) && w.blocks == Deposited(v.blocks, h.chains[k], file.data)
  }

  lemma CopiedIsWellFormed(v: Vol, g: Shape, k: nat, file: SourceFile, w: Vol, h: Shape)
    requires Copied(v, g, k, file, w, h)
    ensures WellFormed(v, g) && WellFormed(w, h) && v.total <= |v.table| && w.total == v.total <= |w.table|
    ensures Live(h, k) && k < SLOTS
    ensures |v.dir| == |w.dir| == |g.chains| == |h.chains| == SLOTS
  {
    FreeEntries(v, g);
    FreeEntries(w, h);
    forall a: nat | a < SLOTS ensures Sized(w.dir, h, a) {
      if a != k { assert Sized(v.dir, g, a) && h.chains[a] == g.chains[a]; }
    }
  }

  lemma CopiedFits(v: Vol, g: Shape, k: nat, file: SourceFile, w: Vol, h: Shape)
    requires Copied(v, g, k, file, w, h)
    ensures k < |h.chains| && InBlocks(h.chains[k], |v.blocks|) && |h.chains[k]| == Need(file)
    ensures BLOCK_SIZE * (|h.chains[k]| - 1) < |file.data| <= BLOCK_SIZE * |h.chains[k]|
  {
  }

  /** The chain stays within reach exactly if there are as many free blocks there. */
  lemma ChainIsLow(v: Vol, g: Shape, k: nat, file: SourceFile, w: Vol, h: Shape)
    requires Copied(v, g, k, file, w, h)
    ensures v.total <= |v.table| && k < |h.chains|
    ensures Need(file) <= |LowFree(v.table, v.total)| <==>
              forall i :: 0 <= i < |h.chains[k]| ==> h.chains[k][i] < REACHABLE
  {
    hide Entered, Links, Lowest, Core, WellFormed, CanAdd, Deposited;
    EnteredMeans(v, g, k, file, w, h);
    CopiedFits(v, g, k, file, w, h);
    ChainIsTaken(v, g, k, file, w, h);
    LowestReach(v.table, v.total, h.chains[k]);
  }

  lemma LowestReach(t: seq<u32>, total: nat, c: seq<u32>)
    requires total <= |t| && Lowest(t, c) && Elements(c) <= FreeSet(t, total)
    requires forall i, j :: 0 <= i < j < |c| ==> c[i] != c[j]
    ensures |c| <= |LowFree(t, total)| <==> forall i :: 0 <= i < |c| ==> c[i] < REACHABLE
  {
    hide Lowest;
    var low := LowFree(t, total);
    if forall i :: 0 <= i < |c| ==> c[i] < REACHABLE {
      DistinctSize(c, Elements(c));
      SubsetSize(Elements(c), low);
    } else {
      var i :| 0 <= i < |c| && c[i] >= REACHABLE;
      DistinctSize(c[..i], Elements(c[..i]));
      LowestMeans(t, c, i);
      SubsetSize(low, Elements(c[..i]));
    }
  }

  /** Copied within reach: the file is on the image under its base name, byte for byte, and the others are as before. */
  lemma CopyIsRight(v: Vol, g: Shape, k: nat, file: SourceFile, w: Vol, h: Shape)
    requires Copied(v, g, k, file, w, h) && forall i :: 0 <= i < |h.chains[k]| ==> h.chains[k][i] < REACHABLE
    ensures WellFormed(v, g) && WellFormed(w, h)
    ensures Files(w, h) == Files(v, g)[BaseName(file.path) := file.data]
    ensures v.total <= |v.table| && w.total == v.total <= |w.table|
    ensures |LowFree(w.table, w.total)| == |LowFree(v.table, v.total)| - Need(file)
  {
    hide Entered, Links, WellFormed, Core, Files, Contents, FreeSet, SameElsewhere, Deposited;
    CopiedIsWellFormed(v, g, k, file, w, h);
    CopiedFits(v, g, k, file, w, h);
    EnteredMeans(v, g, k, file, w, h);
    ChainIsTaken(v, g, k, file, w, h);
    assert LowFree(v.table, v.total) == LowFree(w.table, w.total) + Elements(h.chains[k]);
    OthersUntouched(v, g, k, file, w, h);
    CopyIsThere(v, g, k, file, w, h);
    WasNotThere(v, g, k, file, w, h);
    FilesUpdated(v, g, w, h, k);
  }

  lemma WasNotThere(v: Vol, g: Shape, k: nat, file: SourceFile, w: Vol, h: Shape)
    requires Entered(v, g, k, file, w, h)
    ensures !Live(g, k)
  {
  }

  lemma OthersUntouched(v: Vol, g: Shape, k: nat, file: SourceFile, w: Vol, h: Shape)
    requires Copied(v, g, k, file, w, h) && forall i :: 0 <= i < |h.chains[k]| ==> h.chains[k][i] < REACHABLE
    requires WellFormed(w, h) && |v.dir| == |w.dir| == |g.chains| == |h.chains| == SLOTS
    ensures SameElsewhere(v, g, w, h, k)
  {
    hide Links, Directory, Lowest, Deposited, Landing, Core, WellFormed, CanAdd;
    var c := h.chains[k];
    CopiedFits(v, g, k, file, w, h);
    EnteredMeans(v, g, k, file, w, h);
    forall i | 0 <= i < |c| ensures Landing(c[i]) == c[i] { LandsInPlace(c[i]); }
    forall a: nat | a < SLOTS && a != k ensures SameFile(v, g, w, h, a) {
      assert h.chains[a] == g.chains[a];
      ChainInBlocks(w, h, a);
      forall i | 0 <= i < |g.chains[a]| ensures w.blocks[g.chains[a][i]] == v.blocks[g.chains[a][i]] {
        NotInChain(w, h, k, a, i);
        DepositStays(v.blocks, c, file.data, g.chains[a][i]);
      }
    }
  }

  lemma CopyIsThere(v: Vol, g: Shape, k: nat, file: SourceFile, w: Vol, h: Shape)
    requires Copied(v, g, k, file, w, h) && forall i :: 0 <= i < |h.chains[k]| ==> h.chains[k][i] < REACHABLE
    requires WellFormed(w, h) && k < SLOTS && Live(h, k)
    ensures Contents(w, h, k) == file.data
  {
    hide Links, Directory, Lowest, Deposited, Core, WellFormed, CanAdd;
    CopiedFits(v, g, k, file, w, h);
    ChainIsTaken(v, g, k, file, w, h);
    ContentsAre(w, h, k);
    forall p | 0 <= p < |file.data| ensures Contents(w, h, k)[p] == file.data[p] {
      DepositInPlace(v.blocks, h.chains[k], file.data, p);
    }
  }

  lemma ContentsAre(w: Vol, h: Shape, k: nat)
    requires WellFormed(w, h) && k < SLOTS && Live(h, k)
    ensures |w.dir| == SLOTS && InBlocks(h.chains[k], |w.blocks|) && w.dir[k].size <= BLOCK_SIZE * |h.chains[k]|
    ensures forall p :: 0 <= p < w.dir[k].size ==> Contents(w, h, k)[p] == ByteAt(w.blocks, h.chains[k], p)
  {
    ChainInBlocks(w, h, k);
    assert Sized(w.dir, h, k);
  }

  lemma NotInChain(w: Vol, h: Shape, k: nat, a: nat, i: nat)
    requires WellFormed(w, h) && k < SLOTS && a < SLOTS && a != k && i < |h.chains[a]|
    ensures forall j :: 0 <= j < |h.chains[k]| ==> h.chains[k][j] != h.chains[a][i]
  {
    ChainsArePartitioned(w.table, w.total, h);
  }

  /** The pieces for blocks out of reach are nowhere: these blocks hold what they held before. */
  lemma PieceIsLost(v: Vol, g: Shape, k: nat, file: SourceFile, w: Vol, h: Shape, p: nat)
    requires Copied(v, g, k, file, w, h) && p < |file.data|
    requires p / BLOCK_SIZE < |h.chains[k]| && h.chains[k][p / BLOCK_SIZE] >= REACHABLE
    ensures WellFormed(w, h) && Live(h, k) && k < SLOTS && h.chains[k][p / BLOCK_SIZE] < |v.blocks|
    ensures |Contents(w, h, k)| == |file.data|
    ensures Contents(w, h, k)[p] == v.blocks[h.chains[k][p / BLOCK_SIZE]][p % BLOCK_SIZE]
  {
    hide Links, Directory, Lowest, Deposited, Landing, Core, WellFormed, CanAdd;
    CopiedIsWellFormed(v, g, k, file, w, h);
    CopiedFits(v, g, k, file, w, h);
    var c := h.chains[k];
    forall i | 0 <= i < |c| ensures Landing(c[i]) != c[p / BLOCK_SIZE] { LandsInPlace(c[i]); }
    DepositStays(v.blocks, c, file.data, c[p / BLOCK_SIZE]);
    ContentsAre(w, h, k);
  }

  /** The image after the same copy with other bytes. */
  ghost function WithData(v: Vol, k: nat, w: Vol, h: Shape, data: seq<byte>): Vol
    requires k < |h.chains| && InBlocks(h.chains[k], |v.blocks|)
    requires BLOCK_SIZE * (|h.chains[k]| - 1) < |data| <= BLOCK_SIZE * |h.chains[k]|
  {
    w.(blocks := Deposited(v.blocks, h.chains[k], data))
  }

  /** The copy of `data` is on the image, and all other files are as before. */
  ghost predicate Right(v: Vol, g: Shape, k: nat, file: SourceFile, w: Vol, h: Shape, data: seq<byte>)
    requires Copied(v, g, k, file, w, h) && |data| == |file.data|
  {
    && WellFormed(WithData(v, k, w, h, data), h)
    && Files(WithData(v, k, w, h, data), h) == Files(v, g)[BaseName(file.path) := data]
  }

  lemma CopiedToo(v: Vol, g: Shape, k: nat, file: SourceFile, w: Vol, h: Shape, data: seq<byte>)
    requires Copied(v, g, k, file, w, h) && |data| == |file.data|
    ensures Copied(v, g, k, file.(data := data), WithData(v, k, w, h, data), h)
  {
  }

  /** A copy is right whatever the bytes are if and only if the free blocks within reach are enough. */
  lemma CopyIsRightIff(v: Vol, g: Shape, k: nat, file: SourceFile, w: Vol, h: Shape)
    requires Copied(v, g, k, file, w, h)
    ensures v.total <= |v.table|
    ensures Need(file) <= |LowFree(v.table, v.total)| <==>
              forall data: seq<byte> :: |data| == |file.data| ==> Right(v, g, k, file, w, h, data)
  {
    hide Entered, WellFormed, Files, Deposited, LowFree, Contents;
    CopiedFits(v, g, k, file, w, h);
    ChainIsLow(v, g, k, file, w, h);
    var c := h.chains[k];
    if forall i :: 0 <= i < |c| ==> c[i] < REACHABLE {
      forall data: seq<byte> | |data| == |file.data| ensures Right(v, g, k, file, w, h, data) {
        CopiedToo(v, g, k, file, w, h, data);
        CopyIsRight(v, g, k, file.(data := data), WithData(v, k, w, h, data), h);
      }
    } else {
      var i :| 0 <= i < |c| && c[i] >= REACHABLE;
      var p := BLOCK_SIZE * i;
      var data := file.data[p := if v.blocks[c[i]][0] == 0 then 1 else 0];
      CopiedToo(v, g, k, file, w, h, data);
      PieceIsLost(v, g, k, file.(data := data), WithData(v, k, w, h, data), h, p);
      EnteredName(v, g, k, file, w, h);
      FilesAt(WithData(v, k, w, h, data), h, k);
      assert !Right(v, g, k, file, w, h, data);
    }
  }

  lemma EnteredName(v: Vol, g: Shape, k: nat, file: SourceFile, w: Vol, h: Shape)
    requires Entered(v, g, k, file, w, h)
    ensures k < |w.dir| && w.dir[k].name == BaseName(file.path)
  {
  }

  /** The loop has ended. */
  lemma CopyDone(v: Vol, g: Shape, k: nat, file: SourceFile, last: u32, w: Vol, h: Shape)
    requires Copying(v, g, k, file, |file.data|, last, w, h)
    ensures Copied(v, g, k, file, w, h) && WellFormed(v, g) && WellFormed(w, h)
    ensures v.total <= |v.table| && w.total == v.total <= |w.table|
    ensures |FreeSet(w.table, w.total)| == |FreeSet(v.table, v.total)| - Need(file)
    ensures Need(file) <= |LowFree(v.table, v.total)| ==>
              && Files(w, h) == Files(v, g)[BaseName(file.path) := file.data]
              && |LowFree(w.table, w.total)| == |LowFree(v.table, v.total)| - Need(file)
  {
    hide Entered, WellFormed, Files, Deposited, LowFree;
    assert file.data[..|file.data|] == file.data;
    CopiedIsWellFormed(v, g, k, file, w, h);
    ChainIsTaken(v, g, k, file, w, h);
    ChainIsLow(v, g, k, file, w, h);
    if Need(file) <= |LowFree(v.table, v.total)| { CopyIsRight(v, g, k, file, w, h); }
  }
}
