/** Any number of open files at once: opening, reading, writing, seeking, closing and removing interleave, and behave
    as on a map from names to the bytes of blocks with a size, and a position for each descriptor. */
module OpenFiles {
  import opened Types
  import opened Volume
  import opened VolumeFacts
  import opened VolumeSteps
  import opened FileSystem
  import opened FileOps
  import opened WriteProgress
  import HandleRuns
  import Store = FileSystemRuns

  type Cursor = HandleRuns.Cursor
  type HandleOp = HandleRuns.HandleOp

  /** A file: the bytes of its blocks, also those behind its size, and the size. */
  datatype Stored = Stored(raw: seq<byte>, size: nat)

  datatype Position = Position(name: string, at: nat)

  /** The files, the number of free blocks, and what each descriptor has open. */
  datatype World = World(files: map<string, Stored>, free: nat, open: map<nat, Position>)

  datatype Op =
    | Open(d: nat, name: string, mode: char)
    | Use(d: nat, what: HandleOp)
    | Close(d: nat)
    | Remove(name: string)

  predicate InUse(w: World, name: string) {
    exists d :: d in w.open && w.open[d].name == name
  }

  /** Descriptor d stands in a file of the store. */
  predicate Positioned(w: World, d: nat) {
    d in w.open && w.open[d].name in w.files
  }

  /** What descriptor d works on. */
  function CursorOf(w: World, d: nat): Cursor
    requires Positioned(w, d)
  {
    var file := w.files[w.open[d].name];
    HandleRuns.Cursor(file.raw, file.size, w.open[d].at, w.free)
  }

  predicate Opens(w: World, name: string, mode: char) {
    LegalName(name) && (name in w.files || (mode != 'r' && w.free > 0 && |w.files| < SLOTS))
  }

  /** A file has one descriptor at a time and is not removed meanwhile; a read, write or seek is one that leaves disk
      and handle right. */
  ghost predicate Allowed(growth: Growth, w: World, op: Op) {
    match op
    case Open(d, name, _) => d !in w.open && !InUse(w, name)
    case Use(d, what) => Positioned(w, d) && HandleRuns.Allowed(growth, CursorOf(w, d), what)
    case Close(d) => d in w.open
    case Remove(name) => !InUse(w, name)
  }

  /** The file that an open leaves: a new one has one block, with what that held before. */
  function Opened(w: World, name: string, mode: char, stale: Block): Stored {
    if name !in w.files then Stored(stale, 0)
    else if mode == 'w' then Stored(w.files[name].raw[..Min(BLOCK_SIZE, |w.files[name].raw|)], 0)
    else w.files[name]
  }

  function BlocksOf(w: World, name: string): nat {
    if name in w.files then |w.files[name].raw| / BLOCK_SIZE else 0
  }

  function AfterOpen(w: World, d: nat, name: string, mode: char, stale: Block): World {
    if !Opens(w, name, mode) then w
    else
      var file := Opened(w, name, mode, stale);
      World(w.files[name := file], Max(0, w.free + BlocksOf(w, name) - |file.raw| / BLOCK_SIZE),
            w.open[d := Position(name, if mode == 'a' then file.size else 0)])
  }

  function AfterUse(w: World, d: nat, c: Cursor): World
    requires Positioned(w, d)
  {
    var name := w.open[d].name;
    World(w.files[name := Stored(c.raw, c.size)], c.free, w.open[d := Position(name, c.at)])
  }

  function AfterRemove(w: World, name: string): World {
    if LegalName(name) && name in w.files then World(w.files - {name}, w.free + BlocksOf(w, name), w.open) else w
  }

  /** One operation: the world after it and the bytes it delivers.  `stale` is what the block held that a new file gets;
      file_create does not clear it. */
  ghost function Step(growth: Growth, w: World, op: Op, stale: Block): (World, seq<byte>)
    requires Allowed(growth, w, op)
  {
    match op
    case Open(d, name, mode) => (AfterOpen(w, d, name, mode, stale), [])
    case Use(d, what) =>
      var moved := HandleRuns.Moved(growth, CursorOf(w, d), what);
      (AfterUse(w, d, moved.0), moved.1)
    case Close(d) => (w.(open := w.open - {d}), [])
    case Remove(name) => (AfterRemove(w, name), [])
  }

  /** Every operation of the run is allowed, whatever the blocks held that new files get. */
  ghost predicate AllAllowed(growth: Growth, w: World, ops: seq<Op>)
    decreases |ops|
  {
    ops == [] ||
    (Allowed(growth, w, ops[0]) &&
     forall stale: Block :: AllAllowed(growth, Step(growth, w, ops[0], stale).0, ops[1..]))
  }

  /** How many blocks an operation claims at most. */
  function Claims(w: World, op: Op): nat {
    match op
    case Open(d, name, mode) => if name in w.files || mode == 'r' then 0 else 1
    case Use(d, what) => if Positioned(w, d) then HandleRuns.Claims(CursorOf(w, d), what) else 0
    case Close(_) => 0
    case Remove(_) => 0
  }

  /** The run claims no more than n blocks, whatever the blocks held that new files get. */
  ghost predicate Affords(growth: Growth, w: World, ops: seq<Op>, n: int)
    requires AllAllowed(growth, w, ops)
    decreases |ops|
  {
    ops == [] ||
    (Claims(w, ops[0]) <= n &&
     forall stale: Block :: Affords(growth, Step(growth, w, ops[0], stale).0, ops[1..], n - Claims(w, ops[0])))
  }

  lemma {:induction false} AffordsMore(growth: Growth, w: World, ops: seq<Op>, n: int, m: int)
    requires AllAllowed(growth, w, ops) && Affords(growth, w, ops, n) && n <= m
    ensures Affords(growth, w, ops, m)
    decreases |ops|
  {
    hide Step, Claims, Allowed;
    if ops != [] {
      forall stale: Block
        ensures Affords(growth, Step(growth, w, ops[0], stale).0, ops[1..], m - Claims(w, ops[0]))
      {
        AffordsMore(growth, Step(growth, w, ops[0], stale).0, ops[1..], n - Claims(w, ops[0]), m - Claims(w, ops[0]));
      }
    }
  }

  ghost function Run(growth: Growth, w: World, ops: seq<Op>, stales: seq<Block>): (World, seq<byte>)
    requires AllAllowed(growth, w, ops) && |stales| == |ops|
    decreases |ops|
  {
    if ops == [] then (w, []) else
    var one := Step(growth, w, ops[0], stales[0]);
    var rest := Run(growth, one.0, ops[1..], stales[1..]);
    (rest.0, one.1 + rest.1)
  }

  // ----- the files of a volume, with all bytes of their blocks -----

  ghost function StoredAt(v: Vol, g: Shape, k: nat): Stored
    requires WellFormed(v, g) && k < SLOTS && Live(g, k)
  {
    ChainInBlocks(v, g, k);
    Stored(Raw(v.blocks, g.chains[k]), v.dir[k].size)
  }

  ghost function Holdings(v: Vol, g: Shape): map<string, Stored>
    requires WellFormed(v, g)
  {
    map n | n in Names(v, g) :: var k: nat :| k < SLOTS && Live(g, k) && v.dir[k].name == n; StoredAt(v, g, k)
  }

  lemma HoldingAt(v: Vol, g: Shape, k: nat)
    requires WellFormed(v, g) && k < SLOTS && Live(g, k)
    ensures v.dir[k].name in Holdings(v, g) && Holdings(v, g)[v.dir[k].name] == StoredAt(v, g, k)
  {
    assert v.dir[k].name in Names(v, g);
  }

  lemma HolderOf(v: Vol, g: Shape, name: string) returns (k: nat)
    requires WellFormed(v, g) && name in Holdings(v, g)
    ensures k < SLOTS == |v.dir| && Live(g, k) && v.dir[k].name == name && Holdings(v, g)[name] == StoredAt(v, g, k)
  {
    k :| k < SLOTS && Live(g, k) && v.dir[k].name == name;
    HoldingAt(v, g, k);
  }

  /** The contents are the bytes before the size. */
  lemma HoldingsShowFiles(v: Vol, g: Shape)
    requires WellFormed(v, g)
    ensures Holdings(v, g).Keys == Files(v, g).Keys
    ensures forall n :: n in Holdings(v, g) ==> Holdings(v, g)[n].size <= |Holdings(v, g)[n].raw|
                                                && Files(v, g)[n] == Holdings(v, g)[n].raw[..Holdings(v, g)[n].size]
  {
    forall n | n in Holdings(v, g)
      ensures Holdings(v, g)[n].size <= |Holdings(v, g)[n].raw|
      ensures Files(v, g)[n] == Holdings(v, g)[n].raw[..Holdings(v, g)[n].size]
    {
      var k := HolderOf(v, g, n);
      FilesAt(v, g, k);
      assert Sized(v.dir, g, k);
    }
  }

  lemma StoredElsewhere(v: Vol, g: Shape, w: Vol, h: Shape, k: nat, a: nat)
    requires WellFormed(v, g) && WellFormed(w, h) && SameElsewhere(v, g, w, h, k)
    requires a < SLOTS && a != k && (Live(g, a) || Live(h, a))
    ensures Live(g, a) && Live(h, a) && v.dir[a].name == w.dir[a].name
    ensures v.dir[a].name in Holdings(v, g) && v.dir[a].name in Holdings(w, h)
    ensures Holdings(v, g)[v.dir[a].name] == Holdings(w, h)[v.dir[a].name]
  {
    assert g.chains[a] == h.chains[a];
    assert SameFile(v, g, w, h, a);
    ChainInBlocks(v, g, a);
    ChainInBlocks(w, h, a);
    assert Raw(v.blocks, g.chains[a]) == Raw(w.blocks, h.chains[a]);
    HoldingAt(v, g, a);
    HoldingAt(w, h, a);
  }

  /** Whatever happens to the file in slot k, the holdings change at its name only. */
  lemma HoldingsUpdated(v: Vol, g: Shape, w: Vol, h: Shape, k: nat)
    requires WellFormed(v, g) && WellFormed(w, h) && k < SLOTS && SameElsewhere(v, g, w, h, k)
    requires Live(h, k) && (!Live(g, k) || v.dir[k].name == w.dir[k].name)
    ensures Holdings(w, h) == Holdings(v, g)[w.dir[k].name := StoredAt(w, h, k)]
  {
    hide WellFormed, Holdings, StoredAt, SameElsewhere;
    SlotsMatch(v, g);
    SlotsMatch(w, h);
    HoldingAt(w, h, k);
    var l, r := Holdings(w, h), Holdings(v, g)[w.dir[k].name := StoredAt(w, h, k)];
    forall n | n in l ensures n in r && l[n] == r[n] {
      var a := HolderOf(w, h, n);
      if a != k {
        StoredElsewhere(v, g, w, h, k, a);
        NamesDiffer(w, h, a, k);
      }
    }
    forall n | n in r ensures n in l {
      if n != w.dir[k].name {
        var a := HolderOf(v, g, n);
        StoredElsewhere(v, g, w, h, k, a);
      }
    }
  }

  lemma HoldingsRemoved(v: Vol, g: Shape, w: Vol, h: Shape, k: nat)
    requires WellFormed(v, g) && WellFormed(w, h) && k < SLOTS && SameElsewhere(v, g, w, h, k)
    requires Live(g, k) && !Live(h, k)
    ensures Holdings(w, h) == Holdings(v, g) - {v.dir[k].name}
  {
    hide WellFormed, Holdings, StoredAt, SameElsewhere;
    SlotsMatch(v, g);
    SlotsMatch(w, h);
    var l, r := Holdings(w, h), Holdings(v, g) - {v.dir[k].name};
    forall n | n in l ensures n in r && l[n] == r[n] {
      var a := HolderOf(w, h, n);
      StoredElsewhere(v, g, w, h, k, a);
      NamesDiffer(v, g, a, k);
    }
    forall n | n in r ensures n in l {
      var a := HolderOf(v, g, n);
      StoredElsewhere(v, g, w, h, k, a);
    }
  }

  /** The world that a volume and its handles make up. */
  ghost function WorldOf(v: Vol, g: Shape, hs: map<nat, Handle>, holder: map<int, nat>): World
    requires WellFormed(v, g) && AllHeld(v, g, hs, holder)
  {
    LinksBoundOf(v, g);
    World(Holdings(v, g), |FreeSet(v.table, v.total)|, Positions(v, g, hs, holder))
  }

  lemma LinksBoundOf(v: Vol, g: Shape)
    requires WellFormed(v, g)
    ensures v.total <= |v.table|
  {
  }

  // ----- handles as values -----

  datatype Handle = Handle(kind: byte, slot: int, size: u32, first: u32, current: u32, previous: u32, offset: u32)

  ghost function Of(f: File): Handle
    reads f
  {
    Handle(f.kind, f.slot, f.size, f.first, f.current, f.previous, f.offset)
  }

  /** What makes a handle right on a volume. */
  ghost predicate Right(v: Vol, g: Shape, x: Handle) {
    && WellFormed(v, g) && x.kind == TYPE_FILE && 0 <= x.slot < SLOTS && Live(g, x.slot)
    && x.size == v.dir[x.slot].size && x.first == g.chains[x.slot][0]
    && x.offset / BLOCK_SIZE <= x.size / BLOCK_SIZE
    && Placed(g.chains[x.slot], x.offset, x.current, x.previous)
  }

  lemma OpenIsRight(fs: FileSys, f: File)
    ensures f.Open(fs) <==> fs.Valid() && Right(fs.Disk(), fs.shape, Of(f))
  {
  }

  /** A handle stays right whatever happens to another file. */
  lemma RightElsewhere(v: Vol, g: Shape, w: Vol, h: Shape, k: nat, x: Handle)
    requires Right(v, g, x) && WellFormed(w, h) && x.slot != k
    requires |v.dir| == |w.dir| == |g.chains| == |h.chains| == SLOTS && SameElsewhere(v, g, w, h, k)
    ensures Right(w, h, x) && w.dir[x.slot].name == v.dir[x.slot].name
  {
    assert SameFile(v, g, w, h, x.slot);
  }

  /** Descriptor d's handle is right, and its file is held by d alone. */
  ghost predicate HeldBy(v: Vol, g: Shape, hs: map<nat, Handle>, holder: map<int, nat>, d: nat)
    requires d in hs
  {
    Right(v, g, hs[d]) && hs[d].slot in holder && holder[hs[d].slot] == d
  }

  ghost predicate AllHeld(v: Vol, g: Shape, hs: map<nat, Handle>, holder: map<int, nat>) {
    forall d {:trigger HeldBy(v, g, hs, holder, d)} :: d in hs ==> HeldBy(v, g, hs, holder, d)
  }

  ghost function Positions(v: Vol, g: Shape, hs: map<nat, Handle>, holder: map<int, nat>): (r: map<nat, Position>)
    requires AllHeld(v, g, hs, holder)
    ensures r.Keys == hs.Keys
  {
    map d | d in hs :: assert HeldBy(v, g, hs, holder, d); Position(v.dir[hs[d].slot].name, hs[d].offset)
  }

  /** What happens to the file and the handle of d leaves all other descriptors as they were. */
  lemma OthersStay(v: Vol, g: Shape, hs: map<nat, Handle>, holder: map<int, nat>, d: nat, w: Vol, h: Shape, x: Handle)
    requires AllHeld(v, g, hs, holder) && d in hs && Right(w, h, x) && x.slot == hs[d].slot
    requires |v.dir| == |w.dir| == |g.chains| == |h.chains| == SLOTS && SameElsewhere(v, g, w, h, x.slot)
    ensures AllHeld(w, h, hs[d := x], holder)
    ensures Positions(w, h, hs[d := x], holder)
              == Positions(v, g, hs, holder)[d := Position(w.dir[x.slot].name, x.offset)]
  {
    hide Right, SameElsewhere, WellFormed;
    RightSlot(w, h, x);
    forall e | e in hs
      ensures HeldBy(w, h, hs[d := x], holder, e)
      ensures e != d ==> 0 <= hs[e].slot < SLOTS && w.dir[hs[e].slot].name == v.dir[hs[e].slot].name
    {
      assert HeldBy(v, g, hs, holder, e) && HeldBy(v, g, hs, holder, d);
      RightSlot(v, g, hs[e]);
      if e != d { RightElsewhere(v, g, w, h, x.slot, hs[e]); }
    }
  }

  lemma RightSlot(v: Vol, g: Shape, x: Handle)
    requires Right(v, g, x)
    ensures WellFormed(v, g) && 0 <= x.slot < SLOTS == |v.dir| == |g.chains|
  {
  }

  /** A file that no descriptor has may come, change or go. */
  lemma AllStay(v: Vol, g: Shape, hs: map<nat, Handle>, holder: map<int, nat>, k: nat, w: Vol, h: Shape)
    requires AllHeld(v, g, hs, holder) && WellFormed(w, h)
    requires forall e :: e in hs ==> hs[e].slot != k
    requires |v.dir| == |w.dir| == |g.chains| == |h.chains| == SLOTS && SameElsewhere(v, g, w, h, k)
    ensures AllHeld(w, h, hs, holder) && Positions(w, h, hs, holder) == Positions(v, g, hs, holder)
  {
    hide Right, SameElsewhere, WellFormed;
    forall e | e in hs
      ensures HeldBy(w, h, hs, holder, e) && 0 <= hs[e].slot < SLOTS && w.dir[hs[e].slot].name == v.dir[hs[e].slot].name
    {
      assert HeldBy(v, g, hs, holder, e);
      RightSlot(v, g, hs[e]);
      RightElsewhere(v, g, w, h, k, hs[e]);
    }
  }

  /** A new descriptor for a file that none has. */
  lemma OneMore(v: Vol, g: Shape, hs: map<nat, Handle>, holder: map<int, nat>, d: nat, x: Handle)
    requires AllHeld(v, g, hs, holder) && d !in hs && Right(v, g, x) && forall e :: e in hs ==> hs[e].slot != x.slot
    ensures 0 <= x.slot < |v.dir| && AllHeld(v, g, hs[d := x], holder[x.slot := d])
    ensures Positions(v, g, hs[d := x], holder[x.slot := d])
            == Positions(v, g, hs, holder)[d := Position(v.dir[x.slot].name, x.offset)]
  {
    hide Right;
    RightSlot(v, g, x);
    var hs', holder' := hs[d := x], holder[x.slot := d];
    forall e | e in hs' ensures HeldBy(v, g, hs', holder', e) {
      if e != d { assert HeldBy(v, g, hs, holder, e); }
    }
    forall e | e in hs'
      ensures Positions(v, g, hs', holder')[e]
              == if e == d then Position(v.dir[x.slot].name, x.offset) else Positions(v, g, hs, holder)[e]
    {
      if e != d { assert HeldBy(v, g, hs, holder, e) && hs'[e] == hs[e]; }
    }
  }

  lemma OneLess(v: Vol, g: Shape, hs: map<nat, Handle>, holder: map<int, nat>, d: nat)
    requires AllHeld(v, g, hs, holder)
    ensures AllHeld(v, g, hs - {d}, holder) && Positions(v, g, hs - {d}, holder) == Positions(v, g, hs, holder) - {d}
  {
    forall e | e in hs - {d} ensures HeldBy(v, g, hs - {d}, holder, e) { assert HeldBy(v, g, hs, holder, e); }
  }

  /** No handle is on a file of that name. */
  ghost predicate NoneNamed(v: Vol, hs: map<nat, Handle>, name: string) {
    forall e :: e in hs ==> 0 <= hs[e].slot < |v.dir| && v.dir[hs[e].slot].name != name
  }

  // ----- what the operations do to a world -----

  /** A handle stands where the world says. */
  lemma HandleStands(v: Vol, g: Shape, hs: map<nat, Handle>, holder: map<int, nat>, d: nat)
    requires WellFormed(v, g) && AllHeld(v, g, hs, holder) && d in hs
    ensures Right(v, g, hs[d]) && Positioned(WorldOf(v, g, hs, holder), d)
    ensures CursorOf(WorldOf(v, g, hs, holder), d) == HandleRuns.Held(v, g, hs[d].slot, hs[d].offset)
    ensures 0 <= hs[d].slot < SLOTS == |v.dir| && WorldOf(v, g, hs, holder).open[d].name == v.dir[hs[d].slot].name
    ensures forall e {:trigger hs[e]} :: e in hs && e != d ==> hs[e].slot != hs[d].slot
  {
    assert HeldBy(v, g, hs, holder, d);
    HoldingAt(v, g, hs[d].slot);
    forall e {:trigger hs[e]} | e in hs && e != d
      ensures hs[e].slot != hs[d].slot { assert HeldBy(v, g, hs, holder, e); }
  }

  /** A step of one handle on its file is that step of the world. */
  lemma UseMoves(v: Vol, g: Shape, hs: map<nat, Handle>, holder: map<int, nat>, d: nat, w: Vol, h: Shape, x: Handle)
    requires WellFormed(v, g) && AllHeld(v, g, hs, holder) && d in hs && Right(w, h, x) && x.slot == hs[d].slot >= 0
    requires HandleRuns.OnlyFile(v, g, x.slot, w, h)
    ensures WellFormed(w, h) && AllHeld(w, h, hs[d := x], holder) && Positioned(WorldOf(v, g, hs, holder), d)
    ensures WorldOf(w, h, hs[d := x], holder)
              == AfterUse(WorldOf(v, g, hs, holder), d, HandleRuns.Held(w, h, x.slot, x.offset))
  {
    hide WellFormed, AllHeld, Positions, Holdings, Files, Contents, SameElsewhere, Right;
    HandleStands(v, g, hs, holder, d);
    SlotsMatch(v, g);
    SlotsMatch(w, h);
    OthersStay(v, g, hs, holder, d, w, h, x);
    HoldingsUpdated(v, g, w, h, x.slot);
  }

  lemma CloseDrops(v: Vol, g: Shape, hs: map<nat, Handle>, holder: map<int, nat>, d: nat)
    requires WellFormed(v, g) && AllHeld(v, g, hs, holder)
    ensures AllHeld(v, g, hs - {d}, holder)
    ensures WorldOf(v, g, hs - {d}, holder) == WorldOf(v, g, hs, holder).(open := WorldOf(v, g, hs, holder).open - {d})
  {
    hide WellFormed, AllHeld, Positions, Holdings;
    OneLess(v, g, hs, holder, d);
  }

  lemma NotInUse(v: Vol, g: Shape, hs: map<nat, Handle>, holder: map<int, nat>, name: string)
    requires WellFormed(v, g) && AllHeld(v, g, hs, holder) && !InUse(WorldOf(v, g, hs, holder), name)
    ensures NoneNamed(v, hs, name)
  {
    forall e | e in hs ensures 0 <= hs[e].slot < |v.dir| && v.dir[hs[e].slot].name != name {
      HandleStands(v, g, hs, holder, e);
      assert e in WorldOf(v, g, hs, holder).open;
    }
  }

  /** Removing a file that no descriptor has. */
  lemma RemoveDrops(v: Vol, g: Shape, hs: map<nat, Handle>, holder: map<int, nat>, k: nat, w: Vol, h: Shape,
                    name: string)
    requires Removed(v, g, k, w, h) && WellFormed(v, g) && AllHeld(v, g, hs, holder) && NoneNamed(v, hs, name)
    requires LegalName(name) && k < |v.dir| && v.dir[k].name == name
    ensures WellFormed(w, h) && AllHeld(w, h, hs, holder)
    ensures WorldOf(w, h, hs, holder) == AfterRemove(WorldOf(v, g, hs, holder), name)
  {
    hide WellFormed, AllHeld, Positions, Holdings, Files, Contents, SameElsewhere, FreeSet;
    SlotsMatch(v, g);
    SlotsMatch(w, h);
    HoldingAt(v, g, k);
    HoldingsRemoved(v, g, w, h, k);
    AllStay(v, g, hs, holder, k, w, h);
  }

  /** The slot that an open takes is no other descriptor's, because the name is not. */
  lemma SlotIsUnheld(v: Vol, g: Shape, hs: map<nat, Handle>, holder: map<int, nat>, k: nat, w: Vol, h: Shape,
                     name: string)
    requires AllHeld(v, g, hs, holder) && NoneNamed(v, hs, name)
    requires |v.dir| == |w.dir| == SLOTS && k < SLOTS && w.dir[k].name == name
    requires (w == v && h == g) || Emptied(v, g, k, w, h)
    ensures forall e :: e in hs ==> hs[e].slot != k
  {
    forall e | e in hs ensures hs[e].slot != k { assert HeldBy(v, g, hs, holder, e); }
  }

  /** x is the handle that opening `name` gave, and (w, h) the volume it left. */
  ghost predicate Came(v: Vol, g: Shape, w: Vol, h: Shape, x: Handle, name: string, mode: char) {
    && WellFormed(v, g) && Right(w, h, x) && w.dir[x.slot].name == name
    && (if name in Files(v, g) && mode != 'w' then w == v && h == g else Emptied(v, g, x.slot, w, h))
    && x.offset == if mode == 'a' then x.size else 0
  }

  /** What the block held that is the first one of slot k. */
  ghost function FirstBlock(w: Vol, h: Shape, k: int): Block {
    if 0 <= k < |h.chains| && h.chains[k] != [] && h.chains[k][0] < |w.blocks| then w.blocks[h.chains[k][0]]
        else ZeroBlock()
  }

  lemma RawStart(blocks: seq<Block>, c: seq<u32>)
    requires InBlocks(c, |blocks|) && c != []
    ensures |Raw(blocks, c)| >= BLOCK_SIZE && Raw(blocks, c)[..BLOCK_SIZE] == blocks[c[0]]
  {
    RawBlock(blocks, c, 0);
  }

  /** The file as the open leaves it, and the blocks that it takes or frees. */
  lemma OpenedFile(v: Vol, g: Shape, w: Vol, h: Shape, x: Handle, name: string, mode: char, hs: map<nat, Handle>,
                   holder: map<int, nat>)
    requires Came(v, g, w, h, x, name, mode) && AllHeld(v, g, hs, holder)
    ensures 0 <= x.slot < SLOTS && WellFormed(w, h) && Live(h, x.slot) && v.total <= |v.table| && w.total <= |w.table|
    ensures var world, file := WorldOf(v, g, hs, holder), StoredAt(w, h, x.slot);
            && file == Opened(world, name, mode, FirstBlock(w, h, x.slot)) && x.size == file.size
            && |FreeSet(w.table, w.total)| == world.free + BlocksOf(world, name) - |file.raw| / BLOCK_SIZE
  {
    hide Links, Directory, Files, SameElsewhere, FreeSet, Raw, AllHeld, Positions, Holdings;
    LinksBoundOf(v, g);
    LinksBoundOf(w, h);
    SlotsMatch(v, g);
    SlotsMatch(w, h);
    HoldingsShowFiles(v, g);
    ChainInBlocks(w, h, x.slot);
    RawStart(w.blocks, h.chains[x.slot]);
    if Live(g, x.slot) {
      ChainInBlocks(v, g, x.slot);
      RawStart(v.blocks, g.chains[x.slot]);
      HoldingAt(v, g, x.slot);
    }
    assert |h.chains[x.slot]| == 1 ==> h.chains[x.slot] == [h.chains[x.slot][0]];
  }

  /** A successful open, as a step of the world. */
  lemma OpenAdds(v: Vol, g: Shape, hs: map<nat, Handle>, holder: map<int, nat>, d: nat, w: Vol, h: Shape, x: Handle,
                 name: string, mode: char)
    requires WellFormed(v, g) && AllHeld(v, g, hs, holder) && d !in hs && Came(v, g, w, h, x, name, mode)
    requires NoneNamed(v, hs, name) && Opens(WorldOf(v, g, hs, holder), name, mode)
    ensures WellFormed(w, h) && AllHeld(w, h, hs[d := x], holder[x.slot := d])
    ensures WorldOf(w, h, hs[d := x], holder[x.slot := d])
            == AfterOpen(WorldOf(v, g, hs, holder), d, name, mode, FirstBlock(w, h, x.slot))
  {
    hide Right, AllHeld, Positions, Holdings, Files, Contents, FreeSet, SameElsewhere, Emptied, WellFormed, Opened;
    RightSlot(w, h, x);
    RightLive(w, h, x);
    OpenedFile(v, g, w, h, x, name, mode, hs, holder);
    SlotsMatch(v, g);
    SlotsMatch(w, h);
    SlotIsUnheld(v, g, hs, holder, x.slot, w, h, name);
    if name in Files(v, g) && mode != 'w' {
      SameAsItself(v, g, x.slot);
    } else {
      EmptiedElsewhere(v, g, x.slot, w, h);
    }
    AllStay(v, g, hs, holder, x.slot, w, h);
    OneMore(w, h, hs, holder, d, x);
    HoldingsUpdated(v, g, w, h, x.slot);
  }

  lemma RightLive(v: Vol, g: Shape, x: Handle)
    requires Right(v, g, x)
    ensures Live(g, x.slot) && |v.dir| == SLOTS && x.size == v.dir[x.slot].size
  {
  }

  lemma EmptiedElsewhere(v: Vol, g: Shape, k: nat, w: Vol, h: Shape)
    requires Emptied(v, g, k, w, h)
    ensures WellFormed(w, h) && |v.dir| == |w.dir| == |g.chains| == |h.chains| == SLOTS && SameElsewhere(v, g, w, h, k)
    ensures !Live(g, k) || v.dir[k].name == w.dir[k].name
  {
  }

  /** An open succeeds exactly as the world says. */
  lemma OpensAsTheWorldSays(v: Vol, g: Shape, hs: map<nat, Handle>, holder: map<int, nat>, name: string, mode: char)
    requires WellFormed(v, g) && AllHeld(v, g, hs, holder)
    ensures Opens(WorldOf(v, g, hs, holder), name, mode) <==> Store.Opens(Store.View(v, g), name, mode)
  {
    hide WellFormed, Files, Holdings, Positions, AllHeld;
    HoldingsShowFiles(v, g);
    SameKeys(Holdings(v, g), Files(v, g));
  }

  lemma SameKeys<A, B, C>(m: map<A, B>, n: map<A, C>)
    requires m.Keys == n.Keys
    ensures |m| == |n|
  {
    assert |m| == |m.Keys| && |n| == |n.Keys|;
  }

  // ----- the code -----

  /** file_open, said of the handle's value. */
  method OpenOnVolume(fs: FileSys, name: string, mode: char) returns (f: File?)
    requires fs.Valid() && fs.Roomy(if name in Files(fs.Disk(), fs.shape) || mode == 'r' then 0 else 1)
    modifies fs
    ensures fs.room >= old(fs.room) - if name in old(Files(fs.Disk(), fs.shape)) || mode == 'r' then 0 else 1
    ensures fs.Valid() && (f != null <==> Store.Opens(old(Store.View(fs.Disk(), fs.shape)), name, mode))
    ensures f == null ==> fs.Disk() == old(fs.Disk()) && fs.shape == old(fs.shape)
    ensures f != null ==> fresh(f) && Came(old(fs.Disk()), old(fs.shape), fs.Disk(), fs.shape, Of(f), name, mode)
  {
    hide WellFormed, Placed, Files, Contents, FreeSet, SameElsewhere, Emptied, Store.Opens, Sealed;
    f := Store.OpenFile(fs, name, mode);
    if f != null { OpenIsRight(fs, f); }
  }

  class Table {
    const fs: FileSys
    var files: map<nat, File>
    ghost var holder: map<int, nat>  // the descriptor of a slot

    constructor (fs: FileSys)
      requires fs.Valid()
      ensures Valid() && this.fs == fs && files == map[]
    {
      this.fs := fs;
      files, holder := map[], map[];
    }

    ghost function Handles(): map<nat, Handle>
      reads this, files.Values
    {
      map d | d in files :: Of(files[d])
    }

    ghost predicate Valid()
      reads this, fs, files.Values
    {
      fs.Valid() && AllHeld(fs.Disk(), fs.shape, Handles(), holder)
    }

    ghost function Value(): World
      requires Valid()
      reads this, fs, files.Values
    {
      WorldOf(fs.Disk(), fs.shape, Handles(), holder)
    }

    lemma StandsAt(d: nat)
      requires Valid() && d in files
      ensures files[d].Open(fs) && Positioned(Value(), d) && CursorOf(Value(), d) == HandleRuns.At(fs, files[d])
      ensures forall e {:trigger files[e]} :: e in files && e != d ==> files[e] != files[d]
    {
      HandleStands(fs.Disk(), fs.shape, Handles(), holder, d);
      OpenIsRight(fs, files[d]);
      forall e {:trigger files[e]} | e in files && e != d ensures files[e] != files[d] {
        assert Handles()[e].slot != Handles()[d].slot;
      }
    }

    /** A read, write or seek through one descriptor. */
    method DoUse(d: nat, what: HandleOp, growth: Growth) returns (out: seq<byte>)
      requires Valid() && d in files && Positioned(Value(), d)
      requires HandleRuns.Allowed(growth, CursorOf(Value(), d), what)
      requires fs.Roomy(HandleRuns.Claims(CursorOf(Value(), d), what))
      modifies fs, files[d]
      ensures fs.room >= old(fs.room - HandleRuns.Claims(CursorOf(Value(), d), what))
      ensures Valid()
      ensures var moved := HandleRuns.Moved(growth, CursorOf(old(Value()), d), what);
              Value() == AfterUse(old(Value()), d, moved.0) && out == moved.1
    {
      hide WellFormed, Right, AllHeld, Positions, Placed, WorldOf, HandleRuns.OnlyFile, HandleRuns.Allowed,
          HandleRuns.Moved, HandleRuns.Held;
      var f := files[d];
      StandsAt(d);
      ghost var v, g, hs := fs.Disk(), fs.shape, Handles();
      out := HandleRuns.ApplyToHandle(fs, f, what, growth);
      OpenIsRight(fs, f);
      assert Handles() == hs[d := Of(f)];
      UseMoves(v, g, hs, holder, d, fs.Disk(), fs.shape, Of(f));
    }

    method DoClose(d: nat)
      requires Valid() && d in files
      modifies this
      ensures Valid() && Value() == old(Value()).(open := old(Value()).open - {d})
      ensures files.Values <= old(files.Values)
    {
      hide WellFormed, AllHeld, WorldOf;
      ghost var hs := Handles();
      CloseDrops(fs.Disk(), fs.shape, hs, holder, d);
      files := files - {d};
      assert Handles() == hs - {d};
    }

    method DoRemove(name: string)
      requires Valid() && !InUse(Value(), name)
      modifies fs
      ensures fs.room == old(fs.room)
      ensures Valid() && Value() == AfterRemove(old(Value()), name)
    {
      hide WellFormed, AllHeld, WorldOf, Removed, NoneNamed, Files, Holdings, Positions;
      ghost var v, g, hs := fs.Disk(), fs.shape, Handles();
      NotInUse(v, g, hs, holder, name);
      SlotsMatch(v, g);
      HoldingsInWorld(v, g, hs, holder);
      var r, k := FileRemove(fs, name);
      assert Handles() == hs;
      if r == 0 { RemoveDrops(v, g, hs, holder, k, fs.Disk(), fs.shape, name); }
    }

    /** file_open; also what the block held that a new file gets. */
    method DoOpen(d: nat, name: string, mode: char) returns (ghost stale: Block)
      requires Valid() && d !in files && !InUse(Value(), name) && fs.Roomy(Claims(Value(), Open(d, name, mode)))
      modifies this, fs
      ensures fs.room >= old(fs.room - Claims(Value(), Open(d, name, mode)))
      ensures Valid() && Value() == AfterOpen(old(Value()), d, name, mode, stale)
      ensures forall f :: f in files.Values ==> f in old(files.Values) || fresh(f)
    {
      hide WellFormed, Right, AllHeld, WorldOf, Came, NoneNamed, InUse, Opens, Opened, Store.Opens, Store.View, Files;
      ghost var v, g, hs := fs.Disk(), fs.shape, Handles();
      NotInUse(v, g, hs, holder, name);
      OpensAsTheWorldSays(v, g, hs, holder, name, mode);
      HoldingsInWorld(v, g, hs, holder);
      stale := ZeroBlock();
      var f := OpenOnVolume(fs, name, mode);
      assert Handles() == hs;
      if f != null {
        stale := FirstBlock(fs.Disk(), fs.shape, f.slot);
        OpenAdds(v, g, hs, holder, d, fs.Disk(), fs.shape, Of(f), name, mode);
        Admit(d, f);
      }
    }

    method Admit(d: nat, f: File)
      modifies this
      ensures Handles() == old(Handles())[d := Of(f)] && holder == old(holder)[f.slot := d]
      ensures files.Values <= old(files.Values) + {f}
    {
      ghost var hs := Handles();
      files := files[d := f];
      holder := holder[f.slot := d];
      assert Handles() == hs[d := Of(f)];
    }

    lemma Descriptors()
      requires Valid()
      ensures Value().open.Keys == files.Keys
    {
    }

    /** Any operation is its step. */
    method Do(op: Op, growth: Growth) returns (out: seq<byte>, ghost stale: Block)
      requires Valid() && Allowed(growth, Value(), op) && fs.Roomy(Claims(Value(), op))
      modifies this, fs, files.Values
      ensures fs.room >= old(fs.room - Claims(Value(), op))
      ensures Valid() && (Value(), out) == Step(growth, old(Value()), op, stale)
      ensures forall f :: f in files.Values ==> f in old(files.Values) || fresh(f)
    {
      hide WellFormed, AllHeld, WorldOf, AfterOpen, AfterUse, AfterRemove, HandleRuns.Allowed, HandleRuns.Moved;
      Descriptors();
      out, stale := [], ZeroBlock();
      match op
      case Open(d, name, mode) => stale := DoOpen(d, name, mode);
      case Use(d, what) =>
        StandsAt(d);
        out := DoUse(d, what, growth);
      case Close(d) => DoClose(d);
      case Remove(name) => DoRemove(name);
    }

    /** Every run of interleaved operations is the run of the world.  If entries without a block are free, that is so as
        long as the run claims no more blocks than lie ahead of the allocator. */
    method RunAll(ops: seq<Op>, growth: Growth) returns (out: seq<byte>, ghost stales: seq<Block>)
      requires Valid() && AllAllowed(growth, Value(), ops) && (fs.tight || Affords(growth, Value(), ops, fs.room))
      modifies this, fs, files.Values
      ensures Valid() && |stales| == |ops| && (Value(), out) == Run(growth, old(Value()), ops, stales)
      ensures forall f :: f in files.Values ==> f in old(files.Values) || fresh(f)
      decreases |ops|
    {
      hide WellFormed, AllHeld, WorldOf, Step, Allowed, Claims, Sealed;
      out, stales := [], [];
      if ops != [] {
        ghost var left := fs.room - Claims(Value(), ops[0]);
        var one, stale := Do(ops[0], growth);
        if !fs.tight { AffordsMore(growth, Value(), ops[1..], left, fs.room); }
        var rest, more := RunAll(ops[1..], growth);
        out, stales := one + rest, [stale] + more;
      }
    }
  }

  lemma HoldingsInWorld(v: Vol, g: Shape, hs: map<nat, Handle>, holder: map<int, nat>)
    requires WellFormed(v, g) && AllHeld(v, g, hs, holder)
    ensures WorldOf(v, g, hs, holder).files.Keys == Files(v, g).Keys
  {
    HoldingsShowFiles(v, g);
  }
}
