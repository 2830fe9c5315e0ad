/** What a well-formed volume guarantees: disjoint acyclic chains, a shape fixed by the disk
    alone, free-space accounting, and the map from names to contents. */
module VolumeFacts {
  import opened Types
  import opened Volume

  /** Chains never meet and never repeat a block, so each is finite and acyclic; none holds block 0;
      every link on them is used; and each ends in FS_LAST_BLOCK. */
  lemma ChainsArePartitioned(t: seq<u32>, total: nat, g: Shape)
    requires Links(t, total, g)
    ensures forall a: nat, i: nat, b: nat, j: nat ::
              a < SLOTS && i < |g.chains[a]| && b < SLOTS && j < |g.chains[b]| && g.chains[a][i] == g.chains[b][j]
              ==> a == b && i == j
    ensures forall a: nat, i: nat :: a < SLOTS && i < |g.chains[a]| ==>
              0 < g.chains[a][i] < total && t[g.chains[a][i]] == Next(g.chains[a], i) != FREE_BLOCK
    ensures forall e: u32 :: 0 < e < total && t[e] != FREE_BLOCK ==> exists a: nat :: a < SLOTS && e in g.chains[a]
  {
    forall a: nat, i: nat | a < SLOTS && i < |g.chains[a]|
      ensures 0 < g.chains[a][i] < total && t[g.chains[a][i]] == Next(g.chains[a], i) != FREE_BLOCK
      ensures g.chains[a][i] in g.owner && g.owner[g.chains[a][i]] == Pos(a, i)
    {
      assert InPlace(t, total, g, a, i);
      if i + 1 < |g.chains[a]| { assert InPlace(t, total, g, a, i + 1); }
    }
    forall e: u32 | 0 < e < total && t[e] != FREE_BLOCK ensures exists a: nat :: a < SLOTS && e in g.chains[a] {
      assert Owned(total, g, e);
      assert e in g.chains[g.owner[e].slot];
    }
  }

  // ----- the table determines the chains -----

  /** c is what a walk along the links of t visits. */
  ghost predicate Walk(t: seq<u32>, c: seq<u32>) {
    forall i: nat {:trigger Next(c, i)} :: i < |c| ==> c[i] < |t| < LAST_BLOCK && t[c[i]] == Next(c, i)
  }

  lemma ChainIsWalk(t: seq<u32>, total: nat, g: Shape, a: nat)
    requires Links(t, total, g) && a < SLOTS
    ensures Walk(t, g.chains[a])
  {
    forall i: nat | i < |g.chains[a]|
      ensures g.chains[a][i] < |t| < LAST_BLOCK && t[g.chains[a][i]] == Next(g.chains[a], i)
    {
      assert InPlace(t, total, g, a, i);
    }
  }

  lemma {:induction false} WalksAgree(t: seq<u32>, c: seq<u32>, d: seq<u32>, n: nat)
    requires Walk(t, c) && Walk(t, d) && c != [] && d != [] && c[0] == d[0] && n < |c|
    ensures n < |d| && c[..n + 1] == d[..n + 1]
  {
    if n > 0 {
      WalksAgree(t, c, d, n - 1);
      assert c[n - 1] == c[..n][n - 1] == d[..n][n - 1] == d[n - 1];
      var x, y, z := Next(c, n - 1), Next(d, n - 1), Next(c, n);
      assert x == t[c[n - 1]] == t[d[n - 1]] == y;
    }
  }

  /** A walk is fixed by its first block. */
  lemma WalkIsUnique(t: seq<u32>, c: seq<u32>, d: seq<u32>)
    requires Walk(t, c) && Walk(t, d) && c != [] && d != [] && c[0] == d[0]
    ensures c == d
  {
    WalksAgree(t, c, d, |c| - 1);
    WalksAgree(t, d, c, |d| - 1);
    assert c[..|c|] == d[..|d|];
  }

  /** The shape is no extra information: a disk has at most one. */
  lemma ShapeIsUnique(v: Vol, g: Shape, h: Shape)
    requires Core(v, g) && Core(v, h)
    ensures g == h
  {
    forall a: nat | a < SLOTS ensures g.chains[a] == h.chains[a] {
      assert SlotOk(v.dir, g, a) && SlotOk(v.dir, h, a);
      if g.chains[a] != [] {
        ChainIsWalk(v.table, v.total, g, a);
        ChainIsWalk(v.table, v.total, h, a);
        WalkIsUnique(v.table, g.chains[a], h.chains[a]);
      }
    }
    assert g.chains == h.chains;
    forall e: u32 ensures e in g.owner <==> e in h.owner {
      if e in g.owner { assert Owned(v.total, g, e); }
      if e in h.owner { assert Owned(v.total, h, e); }
    }
    forall e | e in g.owner ensures g.owner[e] == h.owner[e] {
      assert Owned(v.total, g, e);
      assert InPlace(v.table, v.total, h, g.owner[e].slot, g.owner[e].at);
    }
    assert g.owner == h.owner;
  }

  // ----- free space -----

  ghost function FreeSet(t: seq<u32>, total: nat): set<u32>
    requires total <= |t|
  {
    set e: u32 | 0 < e < total && t[e] == FREE_BLOCK
  }

  ghost function TotalLength(chains: seq<seq<u32>>): nat {
    if chains == [] then 0 else TotalLength(chains[..|chains| - 1]) + |chains[|chains| - 1]|
  }

  lemma {:induction false} IntervalSize(n: nat, s: set<u32>)
    requires forall e: u32 :: e in s <==> 0 < e <= n
    requires n < LAST_BLOCK
    ensures |s| == n
  {
    if n > 0 {
      IntervalSize(n - 1, s - {n});
    } else {
      assert s == {};
    }
  }

  /** A chain without repetitions has as many elements as positions. */
  lemma {:induction false} DistinctSize(c: seq<u32>, s: set<u32>)
    requires forall i, j :: 0 <= i < j < |c| ==> c[i] != c[j]
    requires forall e :: e in s <==> e in c
    ensures |s| == |c|
  {
    if c == [] {
      assert s == {};
    } else {
      var n := |c| - 1;
      assert c == c[..n] + [c[n]];
      DistinctSize(c[..n], s - {c[n]});
    }
  }

  /** The blocks that belong to one slot are the elements of its chain. */
  lemma OwnedBySlot(t: seq<u32>, total: nat, g: Shape, a: nat, s: set<u32>)
    requires Links(t, total, g) && a < SLOTS
    requires forall e :: e in s <==> e in g.owner && g.owner[e].slot == a
    ensures |s| == |g.chains[a]|
  {
    var c := g.chains[a];
    forall i, j | 0 <= i < j < |c| ensures c[i] != c[j] {
      assert InPlace(t, total, g, a, i) && InPlace(t, total, g, a, j);
    }
    forall e ensures e in s <==> e in c {
      if e in s { assert Owned(total, g, e); }
      if e in c {
        var i: nat :| i < |c| && c[i] == e;
        assert InPlace(t, total, g, a, i);
      }
    }
    DistinctSize(c, s);
  }

  lemma OwnersInside(t: seq<u32>, total: nat, g: Shape)
    requires Links(t, total, g)
    ensures 0 < total <= |t| < LAST_BLOCK && |g.chains| == SLOTS
    ensures forall e :: e in g.owner ==> 0 < e < total && g.owner[e].slot < SLOTS
    ensures forall e: u32 :: 0 < e < total ==> (e in g.owner <==> t[e] != FREE_BLOCK)
  {
    forall e | e in g.owner ensures 0 < e < total && g.owner[e].slot < SLOTS { assert Owned(total, g, e); }
  }

  lemma {:induction false} OwnersBelow(t: seq<u32>, total: nat, g: Shape, n: nat, s: set<u32>)
    requires Links(t, total, g) && n <= SLOTS
    requires forall e :: e in s <==> e in g.owner && g.owner[e].slot < n
    ensures |s| == TotalLength(g.chains[..n])
  {
    hide Links;
    OwnersInside(t, total, g);
    if n == 0 {
      assert s == {};
    } else {
      var top := set e | e in s && g.owner[e].slot == n - 1;
      OwnedBySlot(t, total, g, n - 1, top);
      OwnersBelow(t, total, g, n - 1, s - top);
      assert s == (s - top) + top;
      assert g.chains[..n][..n - 1] == g.chains[..n - 1];
    }
  }

  /** Conservation: the free entries and the lengths of all chains always add up to the number of
      data blocks (block 0 being the directory). */
  lemma SpaceIsConserved(t: seq<u32>, total: nat, g: Shape)
    requires Links(t, total, g)
    ensures |FreeSet(t, total)| + TotalLength(g.chains) == total - 1
  {
    hide Links;
    OwnersInside(t, total, g);
    OwnersBelow(t, total, g, SLOTS, g.owner.Keys);
    assert g.chains[..SLOTS] == g.chains;
    var all := FreeSet(t, total) + g.owner.Keys;
    assert FreeSet(t, total) !! g.owner.Keys;
    IntervalSize(total - 1, all);
  }

  // ----- names and contents -----

  ghost predicate Live(g: Shape, k: nat) {
    k < |g.chains| && g.chains[k] != []
  }

  ghost function Names(v: Vol, g: Shape): set<string>
    requires |v.dir| == |g.chains| == SLOTS
  {
    set k: nat | k < SLOTS && Live(g, k) :: v.dir[k].name
  }

  /** The file system as its users see it. */
  ghost function Files(v: Vol, g: Shape): map<string, seq<byte>>
    requires WellFormed(v, g)
  {
    map n | n in Names(v, g) :: var k: nat :| k < SLOTS && Live(g, k) && v.dir[k].name == n; Contents(v, g, k)
  }

  lemma FilesAt(v: Vol, g: Shape, k: nat)
    requires WellFormed(v, g) && Live(g, k)
    ensures v.dir[k].name in Files(v, g) && Files(v, g)[v.dir[k].name] == Contents(v, g, k)
  {
    assert v.dir[k].name in Names(v, g);
  }

  lemma SlotOf(v: Vol, g: Shape, name: string) returns (k: nat)
    requires WellFormed(v, g) && name in Files(v, g)
    ensures Live(g, k) && v.dir[k].name == name && Files(v, g)[name] == Contents(v, g, k)
  {
    k :| k < SLOTS && Live(g, k) && v.dir[k].name == name;
    FilesAt(v, g, k);
  }

  /** Everything a client of slot k' can observe is the same in both volumes. */
  ghost predicate SameFile(v: Vol, g: Shape, w: Vol, h: Shape, a: nat)
    requires a < |v.dir| && a < |w.dir| && a < |g.chains| && a < |h.chains|
  {
    && v.dir[a] == w.dir[a] && g.chains[a] == h.chains[a]
    && forall i :: 0 <= i < |g.chains[a]| ==>
         g.chains[a][i] < |v.blocks| && g.chains[a][i] < |w.blocks|
         && v.blocks[g.chains[a][i]] == w.blocks[g.chains[a][i]]
  }

  lemma SameFileSameContents(v: Vol, g: Shape, w: Vol, h: Shape, a: nat)
    requires WellFormed(v, g) && WellFormed(w, h) && a < SLOTS && SameFile(v, g, w, h, a) && g.chains[a] != []
    ensures Contents(v, g, a) == Contents(w, h, a)
  {
    ChainInBlocks(v, g, a);
    ChainInBlocks(w, h, a);
    assert Raw(v.blocks, g.chains[a]) == Raw(w.blocks, g.chains[a]);
  }

  ghost predicate SameElsewhere(v: Vol, g: Shape, w: Vol, h: Shape, k: nat)
    requires |v.dir| == |w.dir| == |g.chains| == |h.chains| == SLOTS
  {
    forall a: nat {:trigger g.chains[a]} :: a < SLOTS && a != k ==> SameFile(v, g, w, h, a)
  }

  lemma SameElsewhereTwice(v: Vol, g: Shape, w: Vol, h: Shape, x: Vol, j: Shape, k: nat)
    requires |v.dir| == |w.dir| == |x.dir| == |g.chains| == |h.chains| == |j.chains| == SLOTS
    requires SameElsewhere(v, g, w, h, k) && SameElsewhere(w, h, x, j, k)
    ensures SameElsewhere(v, g, x, j, k)
  {
    forall a: nat | a < SLOTS && a != k ensures SameFile(v, g, x, j, a) {
      assert SameFile(v, g, w, h, a) && SameFile(w, h, x, j, a);
    }
  }

  lemma SameAsItself(v: Vol, g: Shape, k: nat)
    requires WellFormed(v, g)
    ensures |v.dir| == |g.chains| == SLOTS && SameElsewhere(v, g, v, g, k)
  {
    forall a: nat | a < SLOTS && a != k ensures SameFile(v, g, v, g, a) { ChainInBlocks(v, g, a); }
  }

  lemma FilesElsewhere(v: Vol, g: Shape, w: Vol, h: Shape, k: nat, a: nat)
    requires WellFormed(v, g) && WellFormed(w, h) && SameElsewhere(v, g, w, h, k)
    requires a < SLOTS && a != k && (Live(g, a) || Live(h, a))
    ensures Live(g, a) && Live(h, a) && v.dir[a].name == w.dir[a].name
    ensures v.dir[a].name in Files(v, g) && v.dir[a].name in Files(w, h)
    ensures Files(v, g)[v.dir[a].name] == Files(w, h)[v.dir[a].name]
  {
    assert g.chains[a] == h.chains[a];
    SameFileSameContents(v, g, w, h, a);
    FilesAt(v, g, a);
    FilesAt(w, h, a);
  }

  lemma SlotsMatch(v: Vol, g: Shape)
    requires WellFormed(v, g)
    ensures |v.dir| == |g.chains| == SLOTS
  {
  }

  lemma NamesDiffer(v: Vol, g: Shape, a: nat, b: nat)
    requires WellFormed(v, g) && Live(g, a) && Live(g, b) && a != b
    ensures a < SLOTS == |v.dir| && b < SLOTS && v.dir[a].name != v.dir[b].name
  {
  }

  /** Rewriting the file in slot k, its name staying, updates the map at that name only. */
  lemma FilesUpdated(v: Vol, g: Shape, w: Vol, h: Shape, k: nat)
    requires WellFormed(v, g) && WellFormed(w, h) && k < SLOTS && SameElsewhere(v, g, w, h, k)
    requires Live(h, k) && (!Live(g, k) || v.dir[k].name == w.dir[k].name)
    ensures Files(w, h) == Files(v, g)[w.dir[k].name := Contents(w, h, k)]
  {
    hide WellFormed, Files, Contents, SameElsewhere;
    SlotsMatch(v, g);
    SlotsMatch(w, h);
    FilesAt(w, h, k);
    var l, r := Files(w, h), Files(v, g)[w.dir[k].name := Files(w, h)[w.dir[k].name]];
    forall n | n in l ensures n in r && l[n] == r[n] {
      var a := SlotOf(w, h, n);
      if a != k {
        FilesElsewhere(v, g, w, h, k, a);
        NamesDiffer(w, h, a, k);
      }
    }
    forall n | n in r ensures n in l {
      if n != w.dir[k].name {
        var a := SlotOf(v, g, n);
        FilesElsewhere(v, g, w, h, k, a);
      }
    }
  }

  /** Emptying slot k removes that name only. */
  lemma FilesRemoved(v: Vol, g: Shape, w: Vol, h: Shape, k: nat)
    requires WellFormed(v, g) && WellFormed(w, h) && k < SLOTS && SameElsewhere(v, g, w, h, k)
    requires Live(g, k) && !Live(h, k)
    ensures Files(w, h) == Files(v, g) - {v.dir[k].name}
  {
    hide WellFormed, Files, Contents, SameElsewhere;
    SlotsMatch(v, g);
    SlotsMatch(w, h);
    var l, r := Files(w, h), Files(v, g) - {v.dir[k].name};
    forall n | n in l ensures n in r && l[n] == r[n] {
      var a := SlotOf(w, h, n);
      FilesElsewhere(v, g, w, h, k, a);
      NamesDiffer(v, g, a, k);
    }
    forall n | n in r ensures n in l {
      var a := SlotOf(v, g, n);
      FilesElsewhere(v, g, w, h, k, a);
    }
  }

  lemma {:induction false} NamesBelow(v: Vol, g: Shape, n: nat, names: set<string>)
    requires WellFormed(v, g) && n <= SLOTS && forall k: nat :: k < SLOTS ==> Live(g, k)
    requires names == set k: nat | k < n :: v.dir[k].name
    ensures |names| == n
  {
    if n == 0 {
      assert names == {};
    } else {
      var fewer := set k: nat | k < n - 1 :: v.dir[k].name;
      NamesBelow(v, g, n - 1, fewer);
      assert names == fewer + {v.dir[n - 1].name};
      forall k: nat | k < n - 1 ensures v.dir[k].name != v.dir[n - 1].name { assert Live(g, k); }
    }
  }

  /** A directory without a free slot lists 128 different names. */
  lemma FullDirectory(v: Vol, g: Shape)
    requires WellFormed(v, g) && forall k: nat :: k < SLOTS ==> Live(g, k)
    ensures |Files(v, g)| == SLOTS
  {
    var names := set k: nat | k < SLOTS :: v.dir[k].name;
    NamesBelow(v, g, SLOTS, names);
    assert Names(v, g) == names;
    assert Files(v, g).Keys == names;
  }
}
