/** Files put on an image by the host tool, read back by the kernel. */
module ImageRoundTrip {
  import opened Types
  import opened MemUtils
  import opened Volume
  import opened VolumeFacts
  import opened FileSystem
  import opened FileOps
  import opened MkFileSys
  import opened WriteProgress

  function Sum(chunks: seq<u32>): nat {
    if chunks == [] then 0 else chunks[0] + Sum(chunks[1..])
  }

  lemma ChunkIsPrefix(was: seq<byte>, bytes: seq<byte>, start: nat, n: nat, buf: seq<byte>)
    requires start + n <= |bytes| && n <= |buf| && Overwritten(was, 0, bytes[start..start + n], buf)
    ensures buf[..n] == bytes[start..start + n]
  {
  }

  lemma SlicesJoin(bytes: seq<byte>, a: nat, b: nat, c: nat)
    requires a <= b <= c <= |bytes|
    ensures bytes[a..b] + bytes[b..c] == bytes[a..c]
  {
  }

  /** Reading in pieces of any sizes delivers the bytes in order, none twice and none left out. */
  method ReadInChunks(fs: FileSys, f: File, chunks: seq<u32>, ghost bytes: seq<byte>) returns (out: seq<byte>)
    requires f.Open(fs) && bytes == f.Bytes(fs) && f.offset <= f.size
    modifies f
    ensures f.Open(fs) && f.slot == old(f.slot) && f.offset == Min(f.size, old(f.offset) + Sum(chunks))
    ensures out == bytes[old(f.offset)..f.offset]
    decreases chunks
  {
    hide WellFormed, Contents, Placed, Overwritten;
    BytesAreSized(fs.Disk(), fs.shape, f.slot);
    out := [];
    if chunks != [] {
      var buf := new byte[chunks[0]];
      ghost var was := buf[..];
      var n := FileRead(fs, f, buf, chunks[0]);
      if n > 0 { ChunkIsPrefix(was, bytes, old(f.offset), n, buf[..]); }
      var rest := ReadInChunks(fs, f, chunks[1..], bytes);
      out := buf[..n] + rest;
      SlicesJoin(bytes, old(f.offset), old(f.offset) + n, f.offset);
    }
  }

  lemma BytesAreSized(v: Vol, g: Shape, k: nat)
    requires WellFormed(v, g) && Live(g, k)
    ensures k < SLOTS == |v.dir| && |Contents(v, g, k)| == v.dir[k].size
  {
  }

  lemma NamesAreLegal(v: Vol, g: Shape)
    requires WellFormed(v, g)
    ensures forall name :: name in Files(v, g) ==> LegalName(name)
  {
    forall name | name in Files(v, g) ensures LegalName(name) {
      var k := SlotOf(v, g, name);
      assert SlotOk(v.dir, g, k);
    }
  }

  lemma NothingPadded(v: Vol, g: Shape)
    requires WellFormed(v, g)
    ensures !Padded(v.table, v.total)
  {
  }

  /** The image round trip: after the tool has run, any file on the image, new or old, opens for
      reading in the kernel and reads back byte for byte. */
  method BuildThenRead(img: Image, sectors: nat, files: seq<SourceFile>, name: string, chunks: seq<u32>)
    returns (f: File?, out: seq<byte>)
    requires img.Valid() && img.meta.Length == ENTRIES_PER_SECTOR * sectors
    requires img.total <= img.meta.Length
    requires Fit(files, Files(img.Disk(), img.shape), |LowFree(img.meta[..], img.total)|)
    modifies img, img.meta, img.dentries
    ensures var expected := AllAdded(old(Files(img.Disk(), img.shape)), files);
            && (f != null <==> LegalName(name) && name in expected)
            && (f != null ==> out == expected[name][..Min(|expected[name]|, Sum(chunks))])
    ensures forall i :: 0 <= i < |files| && files[i].data != [] && BaseName(files[i].path) == name ==>
              f != null && out == files[i].data[..Min(|files[i].data|, Sum(chunks))]
    ensures name in old(Files(img.Disk(), img.shape)) ==>
              var bytes := old(Files(img.Disk(), img.shape))[name];
              f != null && out == bytes[..Min(|bytes|, Sum(chunks))]
  {
    hide WellFormed, Contents, Files, Fit, AllAdded, Sealed, Padded, LowFree, BaseName, LegalName;
    NamesAreLegal(img.Disk(), img.shape);
    FilesAreThere(files, Files(img.Disk(), img.shape), |LowFree(img.meta[..], img.total)|);
    img.AddFiles(files);
    NothingPadded(img.Disk(), img.shape);
    SealedIsSame(img.meta[..], img.total);
    var fs := new FileSys.Mount(sectors, img.meta[..], img.total, img.blocks, img.dentries[..], img.shape);
    f := FileOpen(fs, name, 'r');
    out := [];
    if f != null {
      FilesAt(fs.Disk(), fs.shape, f.slot);
      BytesAreSized(fs.Disk(), fs.shape, f.slot);
      out := ReadInChunks(fs, f, chunks, f.Bytes(fs));
    }
  }
}
