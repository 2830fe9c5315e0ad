/** The byte loops of utils/mem_utils.c. */
module MemUtils {
  import opened Types

  /** r is s with the bytes from position `at` on replaced by `data`. */
  ghost predicate Overwritten(s: seq<byte>, at: nat, data: seq<byte>, r: seq<byte>) {
    |r| == |s| && forall j :: 0 <= j < |r| ==> r[j] == if at <= j < at + |data| then data[j - at] else s[j]
  }

  /** Copies `data` to `dst[at..]`, one byte at a time in ascending order. */
  method Memcpy(dst: array<byte>, at: nat, data: seq<byte>)
    requires at + |data| <= dst.Length
    modifies dst
    ensures Overwritten(old(dst[..]), at, data, dst[..])
  {
    for i := 0 to |data|
      invariant forall j :: 0 <= j < dst.Length ==> dst[j] == if at <= j < at + i then data[j - at] else old(dst[j])
    {
      dst[at + i] := data[i];
    }
  }

  /** Copies `n` bytes from `src` to `dst` inside one buffer, one byte at a time in ascending order.
      With the source above the destination the overlap is harmless: the result is a move. */
  method MemcpyWithin(mem: array<byte>, dst: nat, src: nat, n: nat)
    requires dst <= src && src + n <= mem.Length
    modifies mem
    ensures Overwritten(old(mem[..]), dst, old(mem[..])[src..src + n], mem[..])
  {
    for i := 0 to n
      invariant forall j :: 0 <= j < mem.Length ==>
                  mem[j] == if dst <= j < dst + i then old(mem[j + src - dst]) else old(mem[j])
    {
      mem[dst + i] := mem[src + i];
    }
  }

  /** Fills the first `n` bytes of `dst` with one value. */
  method Memset(dst: array<byte>, data: byte, n: nat)
    requires n <= dst.Length
    modifies dst
    ensures Overwritten(old(dst[..]), 0, seq(n, _ => data), dst[..])
  {
    for i := 0 to n
      invariant forall j :: 0 <= j < dst.Length ==> dst[j] == if j < i then data else old(dst[j])
    {
      dst[i] := data;
    }
  }
}
