/**
 Whole runs of the file system.  A client sees a finite map from names to byte sequences with room
 for so many blocks and 128 names; every run of opens, writes and removals on the disk structure
 behaves as the same run on that map, down to how many bytes a write accepts.
 */
module FileSystemRuns {
  import opened Types
  import opened Volume
  import opened VolumeFacts
  import opened VolumeSteps
  import opened FileSystem
  import opened FileOps
  import opened WriteProgress
  import opened WriteResult

  datatype Abstract = Abstract(files: map<string, seq<byte>>, free: nat)

  /** Put opens a file in a mode, writes once and closes it; Delete removes one. */
  datatype Op = Put(name: string, mode: char, data: seq<byte>) | Delete(name: string)

  predicate Opens(a: Abstract, name: string, mode: char) {
    LegalName(name) && (name in a.files || (mode != 'r' && a.free > 0 && |a.files| < SLOTS))
  }

  /** The file as the open leaves it. */
  function Opened(a: Abstract, name: string, mode: char): seq<byte> {
    if name in a.files && mode != 'w' then a.files[name] else []
  }

  function StartOf(a: Abstract, name: string, mode: char): nat {
    if mode == 'a' then |Opened(a, name, mode)| else 0
  }

  /** Blocks that are free, or part of the file, once it is open. */
  function Room(a: Abstract, name: string): nat {
    a.free + if name in a.files then BlocksFor(|a.files[name]|) else 0
  }

  /** How many of the bytes fit. */
  function Accepted(a: Abstract, op: Op): (n: nat)
    requires op.Put? && Opens(a, op.name, op.mode)
    ensures n <= |op.data|
  {
    Min(|op.data|, BLOCK_SIZE * Room(a, op.name) - StartOf(a, op.name, op.mode))
  }

  /** A write of `size` bytes keeps to the file's chain: always when growth links to the previous block, and as
      written if it fits the blocks that the opened file has, or if no other block is free. */
  predicate Linked(growth: Growth, a: Abstract, op: Op)
    requires op.Put?
  {
    var own := BlocksFor(|Opened(a, op.name, op.mode)|);
    growth.FromPrevious? || op.data == [] || StartOf(a, op.name, op.mode) + |op.data| <= BLOCK_SIZE * own
        || Room(a, op.name) == own
  }

  /** No position passes 4 GiB. */
  predicate Bounded(a: Abstract, op: Op) {
    op.Put? && Opens(a, op.name, op.mode) ==> StartOf(a, op.name, op.mode) + |op.data| <= 0xFFFF_FFFF
  }

  predicate Sensible(growth: Growth, a: Abstract, op: Op) {
    Bounded(a, op) && (op.Put? && Opens(a, op.name, op.mode) ==> Linked(growth, a, op))
  }

  /** How many blocks an open claims at most. */
  function OpenClaims(a: Abstract, name: string, mode: char): nat {
    if name in a.files || mode == 'r' then 0 else 1
  }

  /** And an operation. */
  function Claims(a: Abstract, op: Op): nat {
    match op
    case Put(name, mode, data) =>
      OpenClaims(a, name, mode) +
      (if Opens(a, name, mode) then Missing(BlocksFor(|Opened(a, name, mode)|), StartOf(a, name, mode), |data|) else 0)
    case Delete(_) => 0
  }

  ghost function Step(a: Abstract, op: Op): Abstract {
    match op
    case Put(name, mode, data) =>
      if !Opens(a, name, mode) then a
      else
        var content := Splice(Opened(a, name, mode), StartOf(a, name, mode), data[..Accepted(a, op)]);
        Abstract(a.files[name := content], Room(a, name) - BlocksFor(|content|))
    case Delete(name) =>
      if LegalName(name) && name in a.files then Abstract(a.files - {name}, Room(a, name)) else a
  }

  ghost predicate AllSensible(growth: Growth, a: Abstract, ops: seq<Op>)
    decreases ops
  {
    ops == [] || (Sensible(growth, a, ops[0]) && AllSensible(growth, Step(a, ops[0]), ops[1..]))
  }

  ghost function Run(a: Abstract, ops: seq<Op>): Abstract
    decreases ops
  {
    if ops == [] then a else Run(Step(a, ops[0]), ops[1..])
  }

  ghost function AllClaims(a: Abstract, ops: seq<Op>): nat
    decreases ops
  {
    if ops == [] then 0 else Claims(a, ops[0]) + AllClaims(Step(a, ops[0]), ops[1..])
  }

  ghost function View(v: Vol, g: Shape): Abstract
    requires WellFormed(v, g)
  {
    Abstract(Files(v, g), |FreeSet(v.table, v.total)|)
  }

  // ----- accounting -----

  lemma {:induction false} TotalLengthUpdate(s: seq<seq<u32>>, k: nat, c: seq<u32>)
    requires k < |s|
    ensures TotalLength(s[k := c]) == TotalLength(s) - |s[k]| + |c|
  {
    var n := |s| - 1;
    if k < n {
      assert s[k := c][..n] == s[..n][k := c];
      TotalLengthUpdate(s[..n], k, c);
    } else {
      assert s[k := c][..n] == s[..n];
    }
  }

  /** The free count moves against the length of the one chain that changed. */
  lemma FreeMoves(v: Vol, g: Shape, w: Vol, h: Shape, k: nat)
    requires WellFormed(v, g) && WellFormed(w, h) && k < SLOTS && SameElsewhere(v, g, w, h, k) && v.total == w.total
    ensures |FreeSet(w.table, w.total)| == |FreeSet(v.table, v.total)| + |g.chains[k]| - |h.chains[k]|
  {
    SpaceIsConserved(v.table, v.total, g);
    SpaceIsConserved(w.table, w.total, h);
    forall a: nat | a < SLOTS && a != k ensures g.chains[a] == h.chains[a] { assert SameFile(v, g, w, h, a); }
    assert h.chains == g.chains[k := h.chains[k]];
    TotalLengthUpdate(g.chains, k, h.chains[k]);
  }

  lemma ChainLength(v: Vol, g: Shape, k: nat)
    requires WellFormed(v, g) && Live(g, k)
    ensures k < SLOTS == |v.dir| && |g.chains[k]| == BlocksFor(|Contents(v, g, k)|) == BlocksFor(v.dir[k].size)
  {
    assert Sized(v.dir, g, k);
  }

  ghost predicate NamedBelow(v: Vol, g: Shape, n: nat, name: string)
    requires n <= |v.dir|
  {
    exists k: nat :: k < n && Live(g, k) && v.dir[k].name == name
  }

  lemma {:induction false} FewNames(v: Vol, g: Shape, n: nat, dead: nat, names: set<string>)
    requires n <= |v.dir| && !Live(g, dead) && forall name :: name in names ==> NamedBelow(v, g, n, name)
    ensures |names| <= if dead < n then n - 1 else n
  {
    if n == 0 {
      assert names == {};
    } else if Live(g, n - 1) {
      FewNames(v, g, n - 1, dead, names - {v.dir[n - 1].name});
    } else {
      FewNames(v, g, n - 1, dead, names);
    }
  }

  /** A slot is free exactly when fewer than 128 names are in use. */
  lemma FreeSlotIffFewNames(v: Vol, g: Shape)
    requires WellFormed(v, g)
    ensures (forall k: nat :: k < SLOTS ==> Live(g, k)) <==> |Files(v, g)| >= SLOTS
  {
    assert Files(v, g).Keys == Names(v, g);
    if forall k: nat :: k < SLOTS ==> Live(g, k) {
      FullDirectory(v, g);
    } else {
      var dead: nat :| dead < SLOTS && !Live(g, dead);
      FewNames(v, g, SLOTS, dead, Names(v, g));
    }
  }

  // ----- each operation, and every run -----

  lemma OthersKeepTheirNames(v: Vol, g: Shape, k: nat, w: Vol, h: Shape, a: nat)
    requires Emptied(v, g, k, w, h) && Live(g, a) && a != k
    ensures k < SLOTS == |w.dir| == |v.dir| && a < SLOTS && v.dir[a].name != w.dir[k].name
  {
    assert SameFile(v, g, w, h, a);
  }

  /** What FileOpen leaves is the abstract file, with the abstract room around it. */
  lemma OpenedView(v: Vol, g: Shape, k: nat, w: Vol, h: Shape, name: string, mode: char)
    requires WellFormed(v, g) && WellFormed(w, h) && Opens(View(v, g), name, mode) && Live(h, k) && k < |w.dir|
    requires w.dir[k].name == name
    requires if name in Files(v, g) && mode != 'w' then w == v && h == g else Emptied(v, g, k, w, h)
    ensures Contents(w, h, k) == Opened(View(v, g), name, mode)
    ensures |h.chains[k]| + |FreeSet(w.table, w.total)| == Room(View(v, g), name)
    ensures Files(w, h) == Files(v, g)[name := Opened(View(v, g), name, mode)]
  {
    FilesAt(w, h, k);
    ChainLength(w, h, k);
    if name in Files(v, g) {
      var s := SlotOf(v, g, name);
      if mode == 'w' {
        forall a: nat | Live(g, a) && a != k ensures v.dir[a].name != name { OthersKeepTheirNames(v, g, k, w, h, a); }
      }
      ChainLength(v, g, k);
    }
  }

  lemma WrittenView(v: Vol, g: Shape, k: nat, offset: nat, data: seq<byte>, w: Vol, h: Shape)
    requires Written(v, g, k, offset, data, w, h) && offset <= |Contents(v, g, k)|
    ensures k < SLOTS == |v.dir|
    ensures var content := Splice(Contents(v, g, k), offset, data);
            && View(w, h).files == Files(v, g)[v.dir[k].name := content]
            && View(w, h).free == |FreeSet(v.table, v.total)| + |g.chains[k]| - BlocksFor(|content|)
  {
    FreeMoves(v, g, w, h, k);
    ChainLength(w, h, k);
    WrittenIsSplice(v, g, k, offset, data, w, h);
  }

  lemma DeletedView(v: Vol, g: Shape, k: nat, w: Vol, h: Shape)
    requires Removed(v, g, k, w, h)
    ensures k < |v.dir| && View(w, h) == Abstract(Files(v, g) - {v.dir[k].name}, Room(View(v, g), v.dir[k].name))
  {
    FilesAt(v, g, k);
    ChainLength(v, g, k);
  }

  lemma PutView(growth: Growth, v: Vol, g: Shape, k: nat, offset: nat, data: seq<byte>, n: nat, w: Vol, h: Shape)
    requires WriteOutcome(growth, v, g, k, offset, data, n, w, h) && k < |v.dir| && offset <= v.dir[k].size
    ensures WellFormed(v, g) && Live(g, k) && k < SLOTS == |v.dir| && offset <= |Contents(v, g, k)| && n <= |data|
    ensures n == Min(|data|, BLOCK_SIZE * (|g.chains[k]| + |FreeSet(v.table, v.total)|) - offset)
    ensures WellFormed(w, h) <==>
              growth.FromPrevious? || data == [] || offset + |data| <= BLOCK_SIZE * BlocksFor(v.dir[k].size)
                                  || |FreeSet(v.table, v.total)| == 0
    ensures WellFormed(w, h) ==>
              var content := Splice(Contents(v, g, k), offset, data[..n]);
              && View(w, h).files == Files(v, g)[v.dir[k].name := content]
              && View(w, h).free == |FreeSet(v.table, v.total)| + |g.chains[k]| - BlocksFor(|content|)
  {
    hide Written, Broken, View;
    ChainLength(v, g, k);
    SizeInChain(v, g, k);
    OutcomeMeans(growth, v, g, k, offset, data, n, w, h);
    assert |FreeSet(v.table, v.total)| == 0 <==> FreeSet(v.table, v.total) == {};
    if WellFormed(w, h) { WrittenView(v, g, k, offset, data[..n], w, h); }
  }

  /** When an open succeeds, said of the disk and of the map. */
  lemma OpensOnVolume(v: Vol, g: Shape, name: string, mode: char)
    requires WellFormed(v, g)
    ensures v.total <= |v.table|
    ensures Opens(View(v, g), name, mode) <==>
              && LegalName(name)
              && (name in Files(v, g)
                  || (mode != 'r' && FreeSet(v.table, v.total) != {} && !(forall k: nat :: k < SLOTS ==> Live(g, k))))
  {
    hide Links, Directory, Files;
    CoreFacts(v, g);
    LinksBound(v.table, v.total, g);
    FreeSlotIffFewNames(v, g);
    assert FreeSet(v.table, v.total) == {} <==> |FreeSet(v.table, v.total)| == 0;
  }

  /** file_open, with its success said of the map. */
  method OpenFile(fs: FileSys, name: string, mode: char) returns (f: File?)
    requires fs.Valid() && fs.Roomy(OpenClaims(View(fs.Disk(), fs.shape), name, mode))
    modifies fs
    ensures fs.room >= old(fs.room - OpenClaims(View(fs.Disk(), fs.shape), name, mode))
    ensures fs.Valid() && (f != null <==> Opens(old(View(fs.Disk(), fs.shape)), name, mode))
    ensures f == null ==> fs.Disk() == old(fs.Disk()) && fs.shape == old(fs.shape)
    ensures f != null ==>
              fresh(f) && f.Open(fs) && fs.dir[f.slot].name == name && f.offset == if mode == 'a' then f.size else 0
    ensures f != null ==>
              if name in old(Files(fs.Disk(), fs.shape)) && mode != 'w' then
                fs.Disk() == old(fs.Disk()) && fs.shape == old(fs.shape)
              else Emptied(old(fs.Disk()), old(fs.shape), f.slot, fs.Disk(), fs.shape)
  {
    hide WellFormed, Placed, Files, Emptied, Opens, Sealed;
    OpensOnVolume(fs.Disk(), fs.shape, name, mode);
    f := FileOpen(fs, name, mode);
  }

  /** Opening, writing once and closing: one step on the map, exactly when the write keeps to the file's chain;
      otherwise no shape fits the disk afterwards. */
  method PutFile(fs: FileSys, name: string, mode: char, data: seq<byte>, growth: Growth)
    requires fs.Valid() && Bounded(View(fs.Disk(), fs.shape), Put(name, mode, data))
    requires fs.Roomy(Claims(View(fs.Disk(), fs.shape), Put(name, mode, data)))
    modifies fs
    ensures fs.room >= old(fs.room - Claims(View(fs.Disk(), fs.shape), Put(name, mode, data)))
    ensures fs.Valid() <==> old(Sensible(growth, View(fs.Disk(), fs.shape), Put(name, mode, data)))
    ensures fs.Valid() ==> View(fs.Disk(), fs.shape) == Step(old(View(fs.Disk(), fs.shape)), Put(name, mode, data))
  {
    hide WellFormed, Emptied, Files, WriteOutcome, KeepsShape, Written, Contents, Splice, Placed, Step, SameElsewhere,
        Opens, Opened, Missing, Sealed, OpenClaims, Broken, Taken, Ahead, Padded;
    ghost var v, g := fs.Disk(), fs.shape;
    var f := OpenFile(fs, name, mode);
    if f != null {
      ghost var w, h, offset := fs.Disk(), fs.shape, f.offset;
      SlotsMatch(w, h);
      OpenedView(v, g, f.slot, w, h, name, mode);
      ChainLength(w, h, f.slot);
      var n := FileWrite(fs, f, data, growth);
      PutView(growth, w, h, f.slot, offset, data, n, fs.Disk(), fs.shape);
      OutcomeMeans(growth, w, h, f.slot, offset, data, n, fs.Disk(), fs.shape);
      if fs.Valid() { StepIsPut(View(v, g), name, mode, data, View(fs.Disk(), fs.shape), offset, n); }
    } else {
      StepIsNothing(View(v, g), name, mode, data);
    }
  }

  lemma StepIsNothing(a: Abstract, name: string, mode: char, data: seq<byte>)
    requires !Opens(a, name, mode)
    ensures Step(a, Put(name, mode, data)) == a
  {
  }

  lemma StepIsPut(a: Abstract, name: string, mode: char, data: seq<byte>, b: Abstract, offset: nat, n: nat)
    requires Opens(a, name, mode) && offset == StartOf(a, name, mode) && n == Accepted(a, Put(name, mode, data))
    requires var content := Splice(Opened(a, name, mode), offset, data[..n]);
             b.files == a.files[name := Opened(a, name, mode)][name := content]
                 && b.free == Room(a, name) - BlocksFor(|content|)
    ensures b == Step(a, Put(name, mode, data))
  {
    var content := Splice(Opened(a, name, mode), offset, data[..n]);
    assert a.files[name := Opened(a, name, mode)][name := content] == a.files[name := content];
  }

  lemma DeleteClaims(a: Abstract, op: Op)
    ensures op.Delete? ==> Claims(a, op) == 0
  {
  }

  /** One operation on the disk is one step on the map. */
  method Apply(fs: FileSys, op: Op, growth: Growth)
    requires fs.Valid() && Sensible(growth, View(fs.Disk(), fs.shape), op)
    requires fs.Roomy(Claims(View(fs.Disk(), fs.shape), op))
    modifies fs
    ensures fs.room >= old(fs.room - Claims(View(fs.Disk(), fs.shape), op))
    ensures fs.Valid() && View(fs.Disk(), fs.shape) == Step(old(View(fs.Disk(), fs.shape)), op)
  {
    hide WellFormed, Removed, Files, Linked, Opens, Accepted, Splice, Opened, StartOf, Sealed, Claims;
    DeleteClaims(View(fs.Disk(), fs.shape), op);
    ghost var v, g := fs.Disk(), fs.shape;
    match op
    case Put(name, mode, data) =>
      PutFile(fs, name, mode, data, growth);
    case Delete(name) =>
      SlotsMatch(v, g);
      var r, k := FileRemove(fs, name);
      if r == 0 { DeletedView(v, g, k, fs.Disk(), fs.shape); }
  }

  /** Every run on a well-formed disk stays well-formed and shows exactly the files of the run on the map.  If entries
      without a block are free, that is so as long as the run claims no more blocks than lie ahead of the allocator. */
  method RunAll(fs: FileSys, ops: seq<Op>, growth: Growth)
    requires fs.Valid() && AllSensible(growth, View(fs.Disk(), fs.shape), ops)
    requires fs.Roomy(AllClaims(View(fs.Disk(), fs.shape), ops))
    modifies fs
    ensures fs.room >= old(fs.room - AllClaims(View(fs.Disk(), fs.shape), ops))
    ensures fs.Valid() && View(fs.Disk(), fs.shape) == Run(old(View(fs.Disk(), fs.shape)), ops)
    decreases ops
  {
    hide WellFormed, View, Step, Claims, Sealed;
    if ops != [] {
      Apply(fs, ops[0], growth);
      RunAll(fs, ops[1..], growth);
    }
  }
}
