/** utils/bitmap.c: runs of bits in a byte array, set, cleared, tested and searched first-fit. */
module Bitmap {

  const BITS_PER_BYTE := 8

  /** bitmap_test as the file has it, and as it must have been meant: a bit test for `% 1`, and the next
      byte, not the current one again, after each eighth bit. */
  datatype Test = AsWritten | AsMeant

  predicate Bit(b: bv8, k: nat)
    requires k < 8
  {
    (b >> k) & 1 == 1
  }

  ghost function Bits(m: seq<bv8>): (s: seq<bool>)
    ensures |s| == 8 * |m|
  {
    seq(8 * |m|, k requires 0 <= k < 8 * |m| => Bit(m[k / 8], k % 8))
  }

  /** s with the run [loc, loc + num) set to v and everything else as it was. */
  ghost function Filled(s: seq<bool>, loc: nat, num: nat, v: bool): (r: seq<bool>)
    ensures |r| == |s|
  {
    seq(|s|, k requires 0 <= k < |s| => if loc <= k < loc + num then v else s[k])
  }

  ghost predicate Run(s: seq<bool>, loc: nat, num: nat, v: bool)
    requires loc + num <= |s|
  {
    forall k :: loc <= k < loc + num ==> s[k] == v
  }

  // ----- bits of a byte -----

  function WithBit(b: bv8, k: nat, v: bool): bv8
    requires k < 8
  {
    if v then b | ((1 as bv8) << k) else b & !((1 as bv8) << k)
  }

  lemma WithBitChangesOne(b: bv8, k: nat, v: bool, j: nat)
    requires k < 8 && j < 8
    ensures Bit(WithBit(b, k, v), j) == if j == k then v else Bit(b, j)
  {
    hide Bit, Mask;
    ShiftIsMask(k);
    MaskedBit(b, k, j);
    BitIsMasked(b, j);
    BitIsMasked(WithBit(b, k, v), j);
  }

  lemma MaskedBit(b: bv8, k: nat, j: nat)
    requires k < 8 && j < 8
    ensures (b | Mask(k)) & Mask(j) != 0 <==> j == k || b & Mask(j) != 0
    ensures (b & !Mask(k)) & Mask(j) != 0 <==> j != k && b & Mask(j) != 0
  {
  }

  /** 1 << k by table. */
  function Mask(k: nat): bv8
    requires k < 8
  {
    [1, 2, 4, 8, 16, 32, 64, 128][k]
  }

  lemma ShiftIsMask(k: nat)
    requires k < 8
    ensures (1 as bv8) << k == Mask(k)
  {
  }

  lemma BitIsMasked(b: bv8, k: nat)
    requires k < 8
    ensures Bit(b, k) <==> b & Mask(k) != 0
  {
  }

  /** Writing one bit of one byte writes one bit of the map. */
  lemma BitWritten(m: seq<bv8>, k: nat, v: bool)
    requires k < 8 * |m|
    ensures Bits(m[k / 8 := WithBit(m[k / 8], k % 8, v)]) == Bits(m)[k := v]
  {
    hide Bit, WithBit;
    var after, meant := Bits(m[k / 8 := WithBit(m[k / 8], k % 8, v)]), Bits(m)[k := v];
    forall j | 0 <= j < |after|
      ensures after[j] == meant[j]
    {
      WithBitChangesOne(m[k / 8], k % 8, v, j % 8);
      assert j / 8 == k / 8 && j % 8 == k % 8 ==> j == k;
    }
  }

  lemma FilledNext(s: seq<bool>, loc: nat, num: nat, v: bool)
    requires loc + num < |s|
    ensures Filled(s, loc, num + 1, v) == Filled(s, loc, num, v)[loc + num := v]
  {
  }

  /** The loop's state: the byte in `val` belongs at `pos`; with it the map has [loc, from) filled. */
  ghost predicate Filling(was: seq<bv8>, m: seq<bv8>, pos: nat, val: bv8, loc: nat, from: nat, v: bool) {
    && loc <= from && pos == from / 8 && pos < |m| == |was|
    && Bits(m[pos := val]) == Filled(Bits(was), loc, from - loc, v)
    && (forall i :: pos <= i < |m| ==> m[i] == was[i])
  }

  lemma FillRound(was: seq<bv8>, m: seq<bv8>, pos: nat, val: bv8, loc: nat, from: nat, v: bool)
    requires Filling(was, m, pos, val, loc, from, v) && (from + 1) / 8 < |m|
    ensures var b := WithBit(val, from % 8, v);
            if (from + 1) % 8 == 0 then
              pos + 1 < |m| && Filling(was, m[pos := b], pos + 1, m[pos + 1], loc, from + 1, v)
            else Filling(was, m, pos, b, loc, from + 1, v)
  {
    hide Bits, Filled, WithBit;
    var b := WithBit(val, from % 8, v);
    BitWritten(m[pos := val], from, v);
    assert m[pos := val][pos := b] == m[pos := b];
    FilledNext(Bits(was), loc, from - loc, v);
    if (from + 1) % 8 == 0 {
      assert m[pos := b][pos + 1 := m[pos + 1]] == m[pos := b];
    }
  }

  // ----- the structure -----

  class Bitmap {
    const nrEntry: nat
    const bytes: array<bv8>

    ghost predicate Valid() {
      1 <= nrEntry && (nrEntry - 1) / 8 < bytes.Length
    }

    /** init_bitmap. */
    constructor (nrEntry: nat, bytes: array<bv8>)
      requires 1 <= nrEntry && (nrEntry - 1) / 8 < bytes.Length
      modifies bytes
      ensures Valid() && this.nrEntry == nrEntry && this.bytes == bytes
      ensures Run(Bits(bytes[..]), 0, nrEntry, false)
    {
      this.nrEntry := nrEntry;
      this.bytes := bytes;
      new;
      var size := (nrEntry - 1) / BITS_PER_BYTE + 1;
      for i := 0 to size
        invariant forall j :: 0 <= j < i ==> bytes[j] == 0
      {
        bytes[i] := 0;
      }
    }

    /** bitmap_set, for every run whose end has its byte in the map. */
    method Set(loc: nat, num: nat)
      requires (loc + num) / 8 < bytes.Length
      modifies bytes
      ensures Bits(bytes[..]) == Filled(old(Bits(bytes[..])), loc, num, true)
    {
      hide Bits, Filled, Filling;
      var from, to := loc, loc + num;
      var pos := from / BITS_PER_BYTE;
      var val := bytes[pos];
      FillStart(bytes[..], loc, true);
      while from < to
        invariant from <= to && Filling(old(bytes[..]), bytes[..], pos, val, loc, from, true)
      {
        FillingBounds(old(bytes[..]), bytes[..], pos, val, loc, from, true);
        FillRound(old(bytes[..]), bytes[..], pos, val, loc, from, true);
        val := val | ((1 as bv8) << (from % BITS_PER_BYTE));
        from := from + 1;
        if from % BITS_PER_BYTE == 0 {
          ghost var was := bytes[..];
          bytes[pos] := val;
          assert bytes[..] == was[pos := val];
          pos := pos + 1;
          val := bytes[pos];
        }
      }
      FillingBounds(old(bytes[..]), bytes[..], pos, val, loc, from, true);
      ghost var was := bytes[..];
      bytes[pos] := val;
      assert bytes[..] == was[pos := val];
    }

    /** bitmap_clear. */
    method Clear(loc: nat, num: nat)
      requires (loc + num) / 8 < bytes.Length
      modifies bytes
      ensures Bits(bytes[..]) == Filled(old(Bits(bytes[..])), loc, num, false)
    {
      hide Bits, Filled, Filling;
      var from, to := loc, loc + num;
      var pos := from / BITS_PER_BYTE;
      var val := bytes[pos];
      FillStart(bytes[..], loc, false);
      while from < to
        invariant from <= to && Filling(old(bytes[..]), bytes[..], pos, val, loc, from, false)
      {
        FillingBounds(old(bytes[..]), bytes[..], pos, val, loc, from, false);
        FillRound(old(bytes[..]), bytes[..], pos, val, loc, from, false);
        val := val & !((1 as bv8) << (from % BITS_PER_BYTE));
        from := from + 1;
        if from % BITS_PER_BYTE == 0 {
          ghost var was := bytes[..];
          bytes[pos] := val;
          assert bytes[..] == was[pos := val];
          pos := pos + 1;
          val := bytes[pos];
        }
      }
      FillingBounds(old(bytes[..]), bytes[..], pos, val, loc, from, false);
      ghost var was := bytes[..];
      bytes[pos] := val;
      assert bytes[..] == was[pos := val];
    }

    /** bitmap_test: 0 or -1. */
    method TestRun(test: Test, loc: nat, num: nat, ones: bool) returns (r: int)
      requires (loc + num) / 8 < bytes.Length
      ensures r == 0 || r == -1
      ensures r == 0 <==> Passes(test, Bits(bytes[..]), loc, num, ones)
    {
      var from, to := loc, loc + num;
      var pos := from / BITS_PER_BYTE;
      var val := bytes[pos];
      while from < to
        invariant loc <= from <= to && pos == from / 8
        invariant test.AsMeant? ==> val == bytes[pos] && Run(Bits(bytes[..]), loc, from - loc, ones)
        invariant test.AsWritten? && ones ==> from == loc
      {
        assert Bits(bytes[..])[from] == Bit(bytes[from / 8], from % 8);
        var bit := if test.AsWritten? then (val >> (from % BITS_PER_BYTE)) % 1 else (val >> (from % BITS_PER_BYTE)) & 1;
        if ones && bit == 0 {
          return -1;
        }
        if !ones && bit != 0 {
          return -1;
        }
        from := from + 1;
        if from % BITS_PER_BYTE == 0 {
          if test.AsWritten? {
            val := bytes[pos];
            pos := pos + 1;
          } else {
            pos := pos + 1;
            val := bytes[pos];
          }
        }
      }
      r := 0;
    }

    /** bitmap_find_free: marks and returns the first run that passes the test and ends before nrEntry. */
    method FindFree(test: Test, num: nat) returns (r: int)
      requires Valid()
      modifies bytes
      ensures r == FirstFit(test, old(Bits(bytes[..])), nrEntry, num, 0)
      ensures Bits(bytes[..]) == if r < 0 then old(Bits(bytes[..])) else Filled(old(Bits(bytes[..])), r, num, true)
    {
      hide Bits, Filled, Passes;
      var from, to := 0, num;
      while to < nrEntry
        invariant to == from + num && bytes[..] == old(bytes[..])
        invariant FirstFit(test, Bits(bytes[..]), nrEntry, num, 0)
                    == FirstFit(test, Bits(bytes[..]), nrEntry, num, from)
      {
        var t := TestRun(test, from, num, false);
        if t < 0 {
          from := from + 1;
          to := to + 1;
        } else {
          Set(from, num);
          return from;
        }
      }
      r := -1;
    }
  }

  lemma FillStart(m: seq<bv8>, loc: nat, v: bool)
    requires loc / 8 < |m|
    ensures Filling(m, m, loc / 8, m[loc / 8], loc, loc, v)
  {
    assert m[loc / 8 := m[loc / 8]] == m;
  }

  lemma FillingBounds(was: seq<bv8>, m: seq<bv8>, pos: nat, val: bv8, loc: nat, from: nat, v: bool)
    requires Filling(was, m, pos, val, loc, from, v)
    ensures pos < |m| == |was| && loc <= from
    ensures Bits(m[pos := val]) == Filled(Bits(was), loc, from - loc, v)
  {
  }

  // ----- what the test and the search answer -----

  /** As written, the remainder by 1 is 0 for every bit: each one counts as clear. */
  ghost predicate Passes(test: Test, s: seq<bool>, loc: nat, num: nat, ones: bool)
    requires loc + num <= |s|
  {
    if test.AsMeant? then Run(s, loc, num, ones) else num == 0 || !ones
  }

  /** The start of the first run from `from` on that passes and ends before nr; -1 if there is none. */
  ghost function FirstFit(test: Test, s: seq<bool>, nr: nat, num: nat, from: nat): int
    requires nr <= |s|
    decreases nr - from
  {
    if from + num >= nr then -1
    else if Passes(test, s, from, num, false) then from
    else FirstFit(test, s, nr, num, from + 1)
  }

  /** First fit: -1 exactly when no run that ends before nr passes, so the last entry is never given out;
      else the lowest one that does. */
  lemma {:induction false} FirstFitIsLowest(test: Test, s: seq<bool>, nr: nat, num: nat, from: nat, at: nat)
    requires nr <= |s|
    ensures var r := FirstFit(test, s, nr, num, from);
            && (r == -1 || (from <= r && r + num < nr && Passes(test, s, r, num, false)))
            && (from <= at && at + num < nr && Passes(test, s, at, num, false) ==> 0 <= r <= at)
    decreases nr - from
  {
    if from + num < nr && !Passes(test, s, from, num, false) {
      FirstFitIsLowest(test, s, nr, num, from + 1, at);
    }
  }

  /** As written the search gives out the lowest run whatever is in it. */
  lemma WrittenSearchIsBlind(s: seq<bool>, nr: nat, num: nat)
    requires nr <= |s|
    ensures FirstFit(AsWritten, s, nr, num, 0) == if num < nr then 0 else -1
    ensures num < nr ==>
      (FirstFit(AsWritten, s, nr, num, 0) == FirstFit(AsMeant, s, nr, num, 0) <==> Run(s, 0, num, false))
  {
    if num < nr {
      FirstFitIsLowest(AsMeant, s, nr, num, 0, 0);
    }
  }

  /** Clearing a run undoes setting it exactly when the run was clear before. */
  lemma ClearUndoesSet(s: seq<bool>, loc: nat, num: nat)
    requires loc + num <= |s|
    ensures Filled(Filled(s, loc, num, true), loc, num, false) == s <==> Run(s, loc, num, false)
  {
    var r := Filled(Filled(s, loc, num, true), loc, num, false);
    assert forall k :: 0 <= k < |s| ==> r[k] == if loc <= k < loc + num then false else s[k];
    if Run(s, loc, num, false) {
      assert r == s;
    }
  }
}
