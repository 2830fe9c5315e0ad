/** filesys/dir.c: the 128 slots of the root directory. */
module Directories {
  import opened Volume
  import opened FileSystem

  /** The first slot whose block index says free, or -1. */
  method FindFreeDentry(fs: FileSys) returns (index: int)
    requires |fs.dir| == SLOTS
    ensures -1 <= index < SLOTS
    ensures index >= 0 ==> fs.dir[index].block == FREE_BLOCK
    ensures forall i :: 0 <= i < (if index < 0 then SLOTS else index) ==> fs.dir[i].block != FREE_BLOCK
  {
    for i := 0 to SLOTS
      invariant forall j :: 0 <= j < i ==> fs.dir[j].block != FREE_BLOCK
    {
      if fs.dir[i].block == FREE_BLOCK { return i; }
    }
    return -1;
  }

  method SetDe(fs: FileSys, index: int, dentry: Dentry) returns (ok: bool)
    requires |fs.dir| == SLOTS
    modifies fs`dir
    ensures ok <==> 0 <= index < SLOTS
    ensures fs.dir == if ok then old(fs.dir)[index := dentry] else old(fs.dir)
  {
    if index < 0 || index >= SLOTS { return false; }
    fs.dir := fs.dir[index := dentry];
    return true;
  }

  method GetDe(fs: FileSys, index: int) returns (ok: bool, dentry: Dentry)
    requires |fs.dir| == SLOTS
    ensures ok <==> 0 <= index < SLOTS
    ensures ok ==> dentry == fs.dir[index]
  {
    if index < 0 || index >= SLOTS { return false, EMPTY_DENTRY; }
    return true, fs.dir[index];
  }

  /** The first slot that carries this name, free slots included, or -1. */
  method FindDentry(fs: FileSys, name: string) returns (index: int, dentry: Dentry)
    requires |fs.dir| == SLOTS
    ensures -1 <= index < SLOTS
    ensures index >= 0 ==> dentry == fs.dir[index] && dentry.name == name
    ensures forall i :: 0 <= i < (if index < 0 then SLOTS else index) ==> fs.dir[i].name != name
  {
    for i := 0 to SLOTS
      invariant forall j :: 0 <= j < i ==> fs.dir[j].name != name
    {
      if fs.dir[i].name == name { return i, fs.dir[i]; }
    }
    return -1, EMPTY_DENTRY;
  }
}
