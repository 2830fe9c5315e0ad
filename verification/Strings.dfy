/** utils/string.c: comparing and copying NUL-terminated strings, as directory entries are. */
module Strings {

  const NUL: char := '\0'

  /** The string at the start of s: what stands before the first NUL. */
  function CString(s: seq<char>): seq<char> {
    if s == [] || s[0] == NUL then [] else [s[0]] + CString(s[1..])
  }

  lemma {:induction false} CStringOf(name: seq<char>, rest: seq<char>)
    requires NUL !in name
    ensures CString(name + rest) == name + CString(rest)
  {
    if name == [] {
      assert name + rest == rest;
    } else {
      CStringOf(name[1..], rest);
      assert (name + rest)[0] == name[0] && (name + rest)[1..] == name[1..] + rest;
      assert [name[0]] + (name[1..] + CString(rest)) == name + CString(rest);
    }
  }

  /** Characters of one byte. */
  predicate Narrow(s: seq<char>) {
    forall i :: 0 <= i < |s| ==> s[i] < 256 as char
  }

  /** What a character is in arithmetic: the C type char is signed. */
  function Code(c: char): int {
    if c < 128 as char then c as int else c as int - 256
  }

  lemma CodeIsSigned(c: char)
    requires c < 256 as char
    ensures -128 <= Code(c) < 128 && (Code(c) == c as int || Code(c) == c as int - 256)
  {
  }

  /** strcmp of two strings, of which the second is terminated and the first may also go on behind the second's end: 0
      exactly when they are the same string, and else the difference, second minus first, of the first characters that
      differ, as signed bytes. */
  method Strcmp(a: seq<char>, b: seq<char>, ghost n: nat, ghost m: nat) returns (r: int)
    requires Narrow(a) && Narrow(b)
    requires n < |a| && NUL !in a[..n] && (a[n] == NUL || m <= n) && m < |b| && b[m] == NUL && NUL !in b[..m]
    ensures r == 0 <==> CString(a) == CString(b)
    ensures r != 0 ==> exists i :: 0 <= i <= n && i <= m && a[..i] == b[..i] && r == Code(b[i]) - Code(a[i])
  {
    var i := 0;
    Before(a, n);
    Before(b, m);
    assert a[0..] == a && b[0..] == b;
    while a[i] != NUL && b[i] != NUL
      invariant i <= n && i <= m && a[..i] == b[..i]
      invariant CString(a) == CString(b) <==> CString(a[i..]) == CString(b[i..])
      decreases n - i
    {
      assert a[i..][1..] == a[i + 1..] && b[i..][1..] == b[i + 1..];
      Heads(a[i], b[i], CString(a[i + 1..]), CString(b[i + 1..]));
      if a[i] != b[i] {
        return Code(b[i]) - Code(a[i]);
      }
      i := i + 1;
    }
    if a[i] != NUL || b[i] != NUL {
      return Code(b[i]) - Code(a[i]);
    }
    r := 0;
  }

  lemma Before(s: seq<char>, n: nat)
    requires n < |s| && NUL !in s[..n]
    ensures forall k :: 0 <= k < n ==> s[k] != NUL
  {
    assert forall k :: 0 <= k < n ==> s[k] in s[..n];
  }

  lemma Heads(x: char, y: char, s: seq<char>, t: seq<char>)
    ensures [x] + s == [y] + t <==> x == y && s == t
  {
    assert ([x] + s)[0] == x && ([y] + t)[0] == y;
    assert ([x] + s)[1..] == s && ([y] + t)[1..] == t;
  }

  /** strcpy: it copies the characters, but the NUL goes to the end of the source, where one is already. */
  method Strcpy(dst: array<char>, src: seq<char>, ghost n: nat)
    requires n < |src| && src[n] == NUL && NUL !in src[..n] && n <= dst.Length
    modifies dst
    ensures dst[..] == src[..n] + old(dst[n..])
  {
    Before(src, n);
    var i := 0;
    while src[i] != NUL
      invariant i <= n && forall k :: 0 <= k < dst.Length ==> dst[k] == if k < i then src[k] else old(dst[k])
      decreases n - i
    {
      dst[i] := src[i];
      i := i + 1;
    }
    assert i == n;
  }

  /** So the copy is the source string exactly when the destination ends there or had a NUL there. */
  lemma CopyIsTerminated(name: seq<char>, rest: seq<char>)
    requires NUL !in name
    ensures CString(name + rest) == name <==> rest == [] || rest[0] == NUL
  {
    CStringOf(name, rest);
    assert name + [] == name;
    if rest != [] && rest[0] != NUL {
      assert |CString(rest)| > 0;
    }
  }
}
