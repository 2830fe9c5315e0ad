/** The 24 name bytes of a directory entry: entering a name with strcpy, and finding it again with strcmp. */
module RawNames {
  import opened Types
  import opened Volume
  import opened Format
  import opened SectorVolume
  import opened Strings

  const NAME_BYTES := 24

  /** A 32-bit word of four characters, the first in the lowest byte. */
  function Packed(a: char, b: char, c: char, d: char): u32
    requires a < 256 as char && b < 256 as char && c < 256 as char && d < 256 as char
  {
    a as int + 0x100 * b as int + 0x1_0000 * c as int + 0x100_0000 * d as int
  }

  lemma Unpacked(a: char, b: char, c: char, d: char)
    requires a < 256 as char && b < 256 as char && c < 256 as char && d < 256 as char
    ensures ByteOfWord(Packed(a, b, c, d), 0) == a as int && ByteOfWord(Packed(a, b, c, d), 1) == b as int
    ensures ByteOfWord(Packed(a, b, c, d), 2) == c as int && ByteOfWord(Packed(a, b, c, d), 3) == d as int
  {
    var w: int := Packed(a, b, c, d);
    var z := c as int + 0x100 * d as int;
    var y := b as int + 0x100 * z;
    assert w == a as int + 0x100 * y;
    assert w / 0x100 == y && w % 0x100 == a as int;
    assert y / 0x100 == z && y % 0x100 == b as int;
    assert w / 0x1_0000 == z && z % 0x100 == c as int && w / 0x100_0000 == d as int;
  }

  /** A directory entry in memory as the eight words that set_de writes. */
  function RecordWith(field: seq<char>, size: u32, block: u32): Record
    requires |field| == NAME_BYTES && Narrow(field)
  {
    seq(8, j requires 0 <= j < 8 =>
      if j == 6 then size else if j == 7 then block
      else Packed(field[4 * j], field[4 * j + 1], field[4 * j + 2], field[4 * j + 3]))
  }

  lemma RecordEnds(field: seq<char>, size: u32, block: u32)
    requires |field| == NAME_BYTES && Narrow(field)
    ensures RecordWith(field, size, block)[6] == size && RecordWith(field, size, block)[7] == block
  {
  }

  lemma RecordByte(field: seq<char>, size: u32, block: u32, j: nat)
    requires |field| == NAME_BYTES && Narrow(field) && j < NAME_BYTES
    ensures ByteOfWord(RecordWith(field, size, block)[j / 4], j % 4) == field[j] as int
  {
    hide Packed, ByteOfWord;
    var k := j / 4;
    Unpacked(field[4 * k], field[4 * k + 1], field[4 * k + 2], field[4 * k + 3]);
    assert j == 4 * k + j % 4;
  }

  lemma RecordDecodes(field: seq<char>, size: u32, block: u32)
    requires |field| == NAME_BYTES && Narrow(field)
    ensures Decoded(RecordWith(field, size, block)) == Dentry(CString(field), size, block)
  {
    hide Packed, ByteOfWord, RecordWith, CString;
    var r := RecordWith(field, size, block);
    var bytes: seq<byte> := seq(24, j requires 0 <= j < 24 => ByteOfWord(r[j / 4], j % 4));
    RecordEnds(field, size, block);
    forall j: nat | j < 24 ensures bytes[j] == field[j] as int { RecordByte(field, size, block, j); }
    assert seq(|bytes|, i requires 0 <= i < |bytes| => bytes[i] as char) == field;
  }

  /** file_create's entry in slot k: the name is copied over whatever `field` held, and the entry written. */
  method Enter(hdd: Hdd, l: Layout, k: nat, name: string, field: array<char>, block: u32) returns (ok: bool)
    requires hdd.Valid() && LaidOut(hdd.sectors, Divide(hdd.totalSectors)) && l == LayoutOf(FreshMbr(hdd.totalSectors))
    requires k < SLOTS
    requires field.Length == NAME_BYTES && Narrow(field[..]) && LegalName(name) && Narrow(name) && NUL !in name
    modifies hdd`sectors, field
    ensures hdd.Valid() && LaidOut(hdd.sectors, Divide(hdd.totalSectors))
    ensures ok <==> hdd.InRange(l.dataAddr, SECTORS_PER_BLOCK)
    ensures var (v, w) :=
              (old(VolumeOf(hdd.sectors, Divide(hdd.totalSectors))), VolumeOf(hdd.sectors, Divide(hdd.totalSectors)));
            && |v.dir| == SLOTS && w.table == v.table
            && w.dir == if ok then v.dir[k := Dentry(CString(name + old(field[|name|..])), 0, block)] else v.dir
  {
    hide Divide, VolumeOf, Decoded, RecordWith, CString;
    Strcpy(field, name + [NUL], |name|);
    assert (name + [NUL])[..|name|] == name;
    RecordDecodes(field[..], 0, block);
    ok := SetDeOnDisk(hdd, l, k, RecordWith(field[..], 0, block));
  }

  /** The characters of entry k's name field, in the sectors of block 0. */
  function FieldOf(ws: seq<Sector>, k: nat): (f: seq<char>)
    requires |ws| == SECTORS_PER_BLOCK && k < SLOTS
    ensures |f| == NAME_BYTES && Narrow(f)
  {
    seq(NAME_BYTES, j requires 0 <= j < NAME_BYTES => ByteOfWord(ws[k / 16][k % 16 * 8 + j / 4], j % 4) as char)
  }

  lemma FieldIsName(sectors: seq<Sector>, s: Sizes, k: nat)
    requires LaidOut(sectors, s) && k < SLOTS
    ensures VolumeOf(sectors, s).dir[k].name == CString(FieldOf(DirectorySectors(sectors, s), k))
  {
    hide ByteOfWord, CString;
    var words := RecordOf(sectors, s, k);
    DentryFromWords(sectors, s, k, words);
    var bytes := seq(24, j requires 0 <= j < 24 => ByteOfWord(words[j / 4], j % 4));
    var f := FieldOf(DirectorySectors(sectors, s), k);
    forall j | 0 <= j < 24 ensures bytes[j] as char == f[j] {
      assert words[j / 4] == sectors[SectorOf(s, 0, k / 16)][k % 16 * 8 + j / 4];
      assert DirectorySectors(sectors, s)[k / 16] == sectors[SectorOf(s, 0, k / 16)];
    }
    assert seq(|bytes|, i requires 0 <= i < |bytes| => bytes[i] as char) == f;
  }

  /** Where strcmp may look in a field: up to a NUL, or to the last byte. */
  lemma FirstNul(f: seq<char>) returns (n: nat)
    requires f != []
    ensures n < |f| && NUL !in f[..n] && (f[n] == NUL || n == |f| - 1)
  {
    n := 0;
    while n < |f| - 1 && f[n] != NUL
      invariant n < |f| && NUL !in f[..n]
    {
      n := n + 1;
    }
  }

  /** find_dentry on the disk: the first slot whose name field strcmp finds equal, free slots included, or -1. */
  method Find(hdd: Hdd, l: Layout, name: string) returns (index: int)
    requires hdd.Valid() && LaidOut(hdd.sectors, Divide(hdd.totalSectors)) && l == LayoutOf(FreshMbr(hdd.totalSectors))
    requires LegalName(name) && Narrow(name) && NUL !in name
    ensures var dir := VolumeOf(hdd.sectors, Divide(hdd.totalSectors)).dir;
            && |dir| == SLOTS && -1 <= index < SLOTS
            && (!hdd.InRange(l.dataAddr, SECTORS_PER_BLOCK) ==> index == -1)
            && (index >= 0 ==> dir[index].name == name)
            && (hdd.InRange(l.dataAddr, SECTORS_PER_BLOCK) ==>
                  forall i :: 0 <= i < (if index < 0 then SLOTS else index) ==> dir[i].name != name)
  {
    hide Divide, VolumeOf, CString, FieldOf;
    ghost var s := Divide(hdd.totalSectors);
    DirSize(hdd.sectors, s);
    BlockPlace(s, |hdd.sectors|, 0);
    if !hdd.InRange(l.dataAddr, SECTORS_PER_BLOCK) { return -1; }
    var buf := hdd.sectors[BlockSector(l.dataAddr, 0)..BlockSector(l.dataAddr, 0) + SECTORS_PER_BLOCK];
    assert buf == DirectorySectors(hdd.sectors, s);
    CStringOf(name, [NUL]);
    NulEnds();
    assert (name + [NUL])[..|name|] == name;
    for i := 0 to SLOTS
      invariant forall j :: 0 <= j < i ==> VolumeOf(hdd.sectors, s).dir[j].name != name
    {
      var field := FieldOf(buf, i);
      ghost var n := FirstNul(field);
      var r := Strcmp(field, name + [NUL], n, |name|);
      FieldIsName(hdd.sectors, s, i);
      if r == 0 { return i; }
    }
    return -1;
  }

  lemma NulEnds()
    ensures CString([NUL]) == []
    ensures forall name: seq<char> :: name + [] == name
  {
  }

  lemma DirSize(sectors: seq<Sector>, s: Sizes)
    requires LaidOut(sectors, s)
    ensures |VolumeOf(sectors, s).dir| == SLOTS
  {
  }

  /** A file that was not there is found under its name, in the slot where it was entered, if and only if the byte
      behind the copied name was NUL; otherwise no file of that name is found. */
  method EnterThenFind(hdd: Hdd, l: Layout, k: nat, name: string, field: array<char>, block: u32)
    returns (before: int, index: int)
    requires hdd.Valid() && LaidOut(hdd.sectors, Divide(hdd.totalSectors)) && l == LayoutOf(FreshMbr(hdd.totalSectors))
    requires k < SLOTS
    requires field.Length == NAME_BYTES && Narrow(field[..]) && LegalName(name) && Narrow(name) && NUL !in name
    requires hdd.InRange(l.dataAddr, SECTORS_PER_BLOCK)
    modifies hdd`sectors, field
    ensures before < 0 ==> index == if old(field[|name|]) == NUL then k else -1
  {
    hide Divide, VolumeOf, CString;
    before := Find(hdd, l, name);
    ghost var dir, rest := VolumeOf(hdd.sectors, Divide(hdd.totalSectors)).dir, field[|name|..];
    CopyIsTerminated(name, rest);
    var ok := Enter(hdd, l, k, name, field, block);
    ghost var dir' := VolumeOf(hdd.sectors, Divide(hdd.totalSectors)).dir;
    assert dir'[k].name == CString(name + rest);
    assert before < 0 ==> forall i :: 0 <= i < SLOTS && i != k ==> dir'[i].name == dir[i].name != name;
    index := Find(hdd, l, name);
  }
}
