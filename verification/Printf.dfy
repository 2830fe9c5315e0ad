/** utils/string.c: vsprintf over the conversions it knows. */
module Printf {
  import opened Numerals
  import opened Strings
  import opened Types

  /** A variable argument: a string without its NUL, a character, an int or a long. */
  datatype Arg = Text(s: seq<char>) | Letter(c: char) | Number(v: int)

  function Prepend(t: seq<char>, r: Option<seq<char>>): Option<seq<char>> {
    if r.None? then None else Some(t + r.value)
  }

  lemma PrependTwice(a: seq<char>, b: seq<char>, r: Option<seq<char>>)
    ensures Prepend(a, Prepend(b, r)) == Prepend(a + b, r)
    ensures a == [] ==> Prepend(a, r) == r
  {
    if r.Some? {
      assert a + (b + r.value) == a + b + r.value;
      assert [] + r.value == r.value;
    }
  }

  predicate Wants(c: char) {
    c in "scdixXq"
  }

  /** The text of one conversion; None if the argument is missing, of another kind, or out of its C type. */
  function Convert(c: char, args: seq<Arg>): Option<seq<char>> {
    if !Wants(c) then Some([c])
    else if args == [] then None
    else match args[0]
      case Text(s) => if c == 's' then Some(s) else None
      case Letter(l) => if c == 'c' then Some([l]) else None
      case Number(v) =>
        if c in "dix" && -INT_MAX - 1 <= v <= INT_MAX then Some(Numeral(v, c == 'x'))
        else if c in "Xq" && -LONG_MAX <= v <= LONG_MAX then Some(Numeral(v, c == 'X'))
        else None
  }

  /** The character after a '%': the terminating NUL if the format ends there. */
  function After(f: seq<char>): char {
    if |f| > 1 then f[1] else NUL
  }

  function Drop<T>(s: seq<T>, n: nat): seq<T> {
    if n <= |s| then s[n..] else []
  }

  /** What vsprintf is to print. */
  function Formatted(f: seq<char>, args: seq<Arg>): Option<seq<char>>
    decreases |f|
  {
    if f == [] then Some([])
    else if f[0] != '%' then Prepend([f[0]], Formatted(f[1..], args))
    else
      var t := Convert(After(f), args);
      if t.None? then None
      else Prepend(t.value, Formatted(Drop(f, 2), Drop(args, if Wants(After(f)) then 1 else 0)))
  }

  // ----- the code -----

  method PutText(buf: array<char>, at: nat, text: seq<char>)
    requires at + |text| <= buf.Length
    modifies buf
    ensures buf[..at + |text|] == old(buf[..at]) + text && buf[at + |text|..] == old(buf[at + |text|..])
  {
    for i := 0 to |text|
      invariant buf[..at + i] == old(buf[..at]) + text[..i] && buf[at + i..] == old(buf[at + i..])
    {
      buf[at + i] := text[i];
    }
  }

  /** One conversion at `at`. */
  method PutConversion(buf: array<char>, at: nat, c: char, args: seq<Arg>) returns (n: nat)
    requires Convert(c, args).Some? && at + |Convert(c, args).value| <= buf.Length
    modifies buf
    ensures n == |Convert(c, args).value| && buf[..at + n] == old(buf[..at]) + Convert(c, args).value
    ensures buf[at + n..] == old(buf[at + n..])
  {
    hide Numeral;
    if c == 's' {
      PutText(buf, at, args[0].s);
      n := |args[0].s|;
    } else if c == 'c' {
      buf[at] := args[0].c;
      n := 1;
    } else if c == 'd' || c == 'i' || c == 'q' {
      n := Itos(args[0].v, buf, at, false);
      assert buf[..at + n] == buf[..at] + buf[at..at + n];
    } else if c == 'x' || c == 'X' {
      n := Itos(args[0].v, buf, at, true);
      assert buf[..at + n] == buf[..at] + buf[at..at + n];
    } else {
      buf[at] := c;
      n := 1;
    }
  }

  /** vsprintf: the formatted text and its NUL; what the buffer held behind them stays. */
  method Vsprintf(buf: array<char>, fstring: seq<char>, args: seq<Arg>) returns (n: nat)
    requires Formatted(fstring, args).Some? && |Formatted(fstring, args).value| < buf.Length
    modifies buf
    ensures n == |Formatted(fstring, args).value|
    ensures buf[..n] == Formatted(fstring, args).value && buf[n] == NUL && buf[n + 1..] == old(buf[n + 1..])
  {
    hide Convert, Wants, After, Prepend;
    var i, ap := 0, args;
    n := 0;
    PrependTwice(buf[..0], [], Formatted(fstring, args));
    assert Drop(fstring, 0) == fstring;
    while i < |fstring|
      invariant n <= buf.Length && buf[n..] == old(buf[n..])
      invariant Formatted(fstring, args) == Prepend(buf[..n], Formatted(Drop(fstring, i), ap))
      decreases |fstring| - i
    {
      ghost var before, tail, rest := buf[..n], buf[n..], Drop(fstring, i);
      FirstPiece(before, rest, ap);
      if fstring[i] == '%' {
        var c := if i + 1 < |fstring| then fstring[i + 1] else NUL;
        assert c == After(rest) by { NextAfter(fstring, i); }
        var len := PutConversion(buf, n, c, ap);
        assert old(buf[n..])[len..] == old(buf[n + len..]) && tail[len..] == buf[n + len..];
        n := n + len;
        ap := Drop(ap, if Wants(c) then 1 else 0);
        assert Drop(rest, 2) == Drop(fstring, i + 2);
        i := i + 2;
      } else {
        buf[n] := fstring[i];
        n := n + 1;
        assert buf[..n] == before + [fstring[i]] && buf[n..] == tail[1..];
        assert old(buf[n - 1..])[1..] == old(buf[n..]);
        assert rest[1..] == Drop(fstring, i + 1);
        i := i + 1;
      }
    }
    FullyPrinted(buf[..n], Drop(fstring, i), ap);
    buf[n] := NUL;
  }

  /** What the next round has to add to the text printed so far. */
  function Piece(f: seq<char>, args: seq<Arg>): Option<seq<char>>
    requires f != []
  {
    if f[0] != '%' then Some([f[0]]) else Convert(After(f), args)
  }

  lemma FirstPiece(t: seq<char>, f: seq<char>, args: seq<Arg>)
    requires f != [] && Prepend(t, Formatted(f, args)).Some?
    ensures Piece(f, args).Some?
    ensures var rest := if f[0] != '%' then Formatted(f[1..], args)
                        else Formatted(Drop(f, 2), Drop(args, if Wants(After(f)) then 1 else 0));
            && Prepend(t, Formatted(f, args)) == Prepend(t + Piece(f, args).value, rest)
            && |t| + |Piece(f, args).value| <= |Prepend(t, Formatted(f, args)).value|
  {
    var rest := if f[0] != '%' then Formatted(f[1..], args)
                else Formatted(Drop(f, 2), Drop(args, if Wants(After(f)) then 1 else 0));
    PrependTwice(t, Piece(f, args).value, rest);
  }

  lemma FullyPrinted(t: seq<char>, f: seq<char>, args: seq<Arg>)
    requires f == []
    ensures Prepend(t, Formatted(f, args)) == Some(t)
  {
    assert t + [] == t;
  }

  lemma NextAfter(f: seq<char>, i: nat)
    requires i < |f|
    ensures After(Drop(f, i)) == if i + 1 < |f| then f[i + 1] else NUL
  {
  }

  // ----- what it prints -----

  /** f does not end inside a conversion, and takes n arguments. */
  predicate Takes(f: seq<char>, n: nat) {
    if f == [] then n == 0
    else if f[0] != '%' then Takes(f[1..], n)
    else |f| > 1 && (if Wants(f[1]) then n > 0 && Takes(f[2..], n - 1) else Takes(f[2..], n))
  }

  lemma PrependBoth(a: seq<char>, r: Option<seq<char>>, s: Option<seq<char>>)
    ensures Prepend(a, if r.None? then None else Prepend(r.value, s))
            == if Prepend(a, r).None? then None else Prepend(Prepend(a, r).value, s)
  {
    if r.Some? {
      PrependTwice(a, r.value, s);
    }
  }

  /** Printing with a format made of two is printing with each, with its own arguments, one after the other. */
  lemma {:induction false} FormatsConcatenate(f: seq<char>, g: seq<char>, args: seq<Arg>, more: seq<Arg>)
    requires Takes(f, |args|)
    ensures Formatted(f + g, args + more)
            == if Formatted(f, args).None? then None else Prepend(Formatted(f, args).value, Formatted(g, more))
    decreases |f|
  {
    hide Wants, Prepend;
    if f == [] {
      assert f + g == g && args + more == more;
      PrependTwice([], [], Formatted(g, more));
    } else if f[0] != '%' {
      FormatsConcatenate(f[1..], g, args, more);
      PrependBoth([f[0]], Formatted(f[1..], args), Formatted(g, more));
      assert (f + g)[1..] == f[1..] + g;
    } else {
      var used := if Wants(f[1]) then 1 else 0;
      FormatsConcatenate(f[2..], g, args[used..], more);
      if Convert(f[1], args).Some? {
        PrependBoth(Convert(f[1], args).value, Formatted(f[2..], args[used..]), Formatted(g, more));
      }
      assert (f + g)[2..] == f[2..] + g && (args + more)[used..] == args[used..] + more;
      assert Convert(f[1], args + more) == Convert(f[1], args);
    }
  }

  /** The parts of a format: characters to print as they are; '%' with a letter that is no conversion, which prints the
      letter; and the conversions, each with its letter and argument. */
  datatype Part = Plain(s: seq<char>) | Escaped(c: char) | String(s: seq<char>) | Character(c: char)
                | Int(letter: char, v: int) | Long(letter: char, v: int)

  predicate Proper(p: Part) {
    match p
    case Plain(s) => '%' !in s
    case Escaped(c) => c !in {'s', 'c', 'd', 'i', 'x', 'X', 'q'}
    case String(_) => true
    case Character(_) => true
    case Int(letter, v) => letter in {'d', 'i', 'x'} && -0x8000_0000 <= v <= 0x7FFF_FFFF
    case Long(letter, v) => letter in {'q', 'X'} && -0x7FFF_FFFF_FFFF_FFFF <= v <= 0x7FFF_FFFF_FFFF_FFFF
  }

  function FormatOf(p: Part): seq<char> {
    match p
    case Plain(s) => s
    case Escaped(c) => ['%', c]
    case String(_) => "%s"
    case Character(_) => "%c"
    case Int(letter, _) => ['%', letter]
    case Long(letter, _) => ['%', letter]
  }

  function ArgsOf(p: Part): seq<Arg> {
    match p
    case Plain(_) => []
    case Escaped(_) => []
    case String(s) => [Text(s)]
    case Character(c) => [Letter(c)]
    case Int(_, v) => [Number(v)]
    case Long(_, v) => [Number(v)]
  }

  /** What a part prints; for the numerals see NumeralMeans. */
  function TextOf(p: Part): seq<char> {
    match p
    case Plain(s) => s
    case Escaped(c) => [c]
    case String(s) => s
    case Character(c) => [c]
    case Int(letter, v) => Numeral(v, letter == 'x')
    case Long(letter, v) => Numeral(v, letter == 'X')
  }

  function Formats(ps: seq<Part>): seq<char> {
    if ps == [] then [] else FormatOf(ps[0]) + Formats(ps[1..])
  }

  function Args(ps: seq<Part>): seq<Arg> {
    if ps == [] then [] else ArgsOf(ps[0]) + Args(ps[1..])
  }

  function Texts(ps: seq<Part>): seq<char> {
    if ps == [] then [] else TextOf(ps[0]) + Texts(ps[1..])
  }

  lemma {:induction false} PlainPrints(s: seq<char>)
    requires '%' !in s
    ensures Takes(s, 0) && Formatted(s, []) == Some(s)
  {
    if s != [] {
      assert '%' !in s[1..];
      PlainPrints(s[1..]);
      assert [s[0]] + s[1..] == s;
    }
  }

  /** Each part prints its text. */
  lemma PartPrints(p: Part)
    requires Proper(p)
    ensures Takes(FormatOf(p), |ArgsOf(p)|) && Formatted(FormatOf(p), ArgsOf(p)) == Some(TextOf(p))
  {
    hide Numeral;
    if p.Plain? {
      PlainPrints(p.s);
    } else {
      var f := FormatOf(p);
      assert f[2..] == [] && Drop(f, 2) == [];
      assert TextOf(p) + [] == TextOf(p);
    }
  }

  /** A format of any parts prints their texts, one after the other. */
  lemma {:induction false} PartsPrint(ps: seq<Part>)
    requires forall i :: 0 <= i < |ps| ==> Proper(ps[i])
    ensures Formatted(Formats(ps), Args(ps)) == Some(Texts(ps))
  {
    hide Proper, FormatOf, ArgsOf, TextOf;
    if ps != [] {
      PartPrints(ps[0]);
      PartsPrint(ps[1..]);
      FormatsConcatenate(FormatOf(ps[0]), Formats(ps[1..]), ArgsOf(ps[0]), Args(ps[1..]));
    }
  }

  /** So does vsprintf. */
  method PrintParts(buf: array<char>, ps: seq<Part>) returns (n: nat)
    requires (forall i :: 0 <= i < |ps| ==> Proper(ps[i])) && |Texts(ps)| < buf.Length
    modifies buf
    ensures n == |Texts(ps)| && buf[..n] == Texts(ps) && buf[n] == NUL
  {
    hide Formatted;
    PartsPrint(ps);
    n := Vsprintf(buf, Formats(ps), Args(ps));
  }

  /** A printed int is read back by stoi, whatever else is printed after it: the number, its magnitude if
      text follows, or an overflow, exactly as for the numeral alone. */
  lemma PrintedIntIsRead(v: int, c: char, g: seq<char>, more: seq<Arg>)
    requires c in {'d', 'i', 'x'} && -INT_MAX - 1 <= v <= INT_MAX
    requires Formatted(g, more).Some? && Detached(v, c == 'x', Formatted(g, more).value)
    ensures var t := Formatted(['%', c] + g, [Number(v)] + more);
            t.Some? && Parsed(t.value) == if Magnitude(v) > Bound(c == 'x') then None
                                          else Some(if Formatted(g, more).value == [] then v else Magnitude(v))
  {
    hide Detached, Parsed, Numeral, Formatted;
    var f := ['%', c];
    PartPrints(Int(c, v));
    FormatsConcatenate(f, g, [Number(v)], more);
    StoiUndoesItos(v, c == 'x', Formatted(g, more).value);
  }
}
