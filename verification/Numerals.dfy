/** utils/string.c: itos and stoi, in both bases, with C's integer ranges. */
module Numerals {
  import opened Arithmetic
  import opened Strings
  import opened Types

  const LONG_MAX := 0x7FFF_FFFF_FFFF_FFFF

  function Base(hex: bool): nat {
    if hex then 16 else 10
  }

  lemma BaseIs(hex: bool)
    ensures Base(hex) == if hex then 16 else 10
  {
  }

  function DigitChar(d: nat): char
    requires d < 16
  {
    if d > 9 then (d - 10 + 'A' as int) as char else (d + '0' as int) as char
  }

  /** The numeral of n, most significant digit first, no leading zeros. */
  function Digits(n: nat, hex: bool): (r: seq<char>)
    ensures |r| >= 1
  {
    var b := Base(hex);
    if n < b then [DigitChar(n)] else Digits(n / b, hex) + [DigitChar(n % b)]
  }

  function Magnitude(v: int): nat {
    if v < 0 then -v else v
  }

  /** What itos is to produce: sign, base prefix, digits. */
  function Numeral(v: int, hex: bool): seq<char> {
    Prefix(v, hex) + Digits(Magnitude(v), hex)
  }

  function Prefix(v: int, hex: bool): seq<char> {
    (if v < 0 then ['-'] else []) + (if hex then ['0', 'x'] else [])
  }

  // ----- itos -----

  function Pow(b: nat, k: nat): (r: nat)
    requires b > 0
    ensures r > 0
  {
    if k == 0 then 1 else b * Pow(b, k - 1)
  }

  /** The digits of n, none for 0: what stands before the next digit is written. */
  function Leading(n: nat, hex: bool): seq<char> {
    if n == 0 then [] else Digits(n, hex)
  }

  /** The digit of a at position i is the last digit of a / i. */
  lemma DigitStep(a: nat, i: nat, b: nat, high: nat, val: nat)
    requires i > 0 && b > 0 && i * b > 0 && high == a / (i * b) && val == a % (i * b)
    ensures a / i / b == high && a / i % b == val / i && val / i < b && val % i == a % i
  {
    DivTwice(a, i, b);
    Euclid(a / i, b);
  }

  lemma LastDigit(x: nat, hex: bool)
    ensures Digits(x, hex) == Leading(x / Base(hex), hex) + [DigitChar(x % Base(hex))]
  {
    var b := Base(hex);
    if x < b {
      DivModIs(x, b, 0, x);
    } else {
      DivAtLeast(x, b, 1);
    }
  }

  /** The two counting loops of itos: the largest power of the base that is at most a, or 1. */
  method LargestPower(a: nat, hex: bool) returns (i: nat, ghost k: nat)
    ensures i == Pow(Base(hex), k) && a < i * Base(hex) && (i == 1 || i <= a)
    ensures |Digits(a, hex)| == k + 1
  {
    hide DigitChar;
    var b := Base(hex);
    var tmp := a;
    i, k := 1, 0;
    while tmp >= b
      invariant i == Pow(b, k) && tmp == a / i && (i == 1 || i <= a)
      invariant |Digits(a, hex)| == |Digits(tmp, hex)| + k
      decreases tmp
    {
      DivTwice(a, i, b);
      Euclid(a, i);
      MulMono(b, tmp, i);
      tmp := tmp / b;
      i := i * b;
      k := k + 1;
    }
    Euclid(a, i);
    MulMono(tmp, b - 1, i);
    MulSum(b, -1, i);
  }

  /** The writing loop's state before the digit at i = b^k: `high` is what has been written, `val` the rest. */
  ghost predicate AtDigit(a: nat, hex: bool, i: nat, k: nat, high: nat, val: nat) {
    var b := Base(hex);
    && i == Pow(b, k) && i * b > 0 && high == a / (i * b) && val == a % (i * b) && (i == 1 || i <= a)
    && |Digits(a, hex)| == |Leading(high, hex)| + k + 1
  }

  /** C's / and % on the non-negative values that occur here. */
  function Quot(x: nat, n: nat): nat
    requires n > 0
  {
    x / n
  }

  function Rem(x: nat, n: nat): nat
    requires n > 0
  {
    x % n
  }

  /** The next lower power of the base. */
  lemma LowerPower(i: nat, b: nat, k: nat)
    requires b > 0 && k > 0 && i == Pow(b, k)
    ensures i / b == Pow(b, k - 1) > 0 && i / b * b == i && i % b == 0
  {
    DivModIs(i, b, Pow(b, k - 1), 0);
  }

  lemma StateAt(a: nat, hex: bool, i: nat, k: nat, high: nat, val: nat)
    requires AtDigit(a, hex, i, k, high, val)
    ensures var b := Base(hex); i > 0 && b > 0 && i * b > 0 && high == a / (i * b) && val == a % (i * b)
  {
  }

  lemma DigitsEnd(x: nat, hex: bool)
    ensures Base(hex) > 0 && Rem(x, Base(hex)) < 16
    ensures Digits(x, hex) == Leading(Quot(x, Base(hex)), hex) + [DigitChar(Rem(x, Base(hex)))]
  {
    LastDigit(x, hex);
  }

  lemma DigitAt(a: nat, hex: bool, i: nat, k: nat, high: nat, val: nat)
    requires AtDigit(a, hex, i, k, high, val)
    ensures i > 0 && Base(hex) > 0 && Quot(val, i) < Base(hex) && Rem(val, i) == Rem(a, i)
    ensures high == Quot(Quot(a, i), Base(hex)) && Quot(val, i) == Rem(Quot(a, i), Base(hex))
  {
    hide Base, AtDigit;
    StateAt(a, hex, i, k, high, val);
    DigitStep(a, i, Base(hex), high, val);
  }

  /** The digit written at i completes the digits of a / i. */
  lemma DigitWritten(a: nat, hex: bool, i: nat, k: nat, high: nat, val: nat)
    requires AtDigit(a, hex, i, k, high, val)
    ensures i > 0 && Quot(val, i) < Base(hex) <= 16 && Rem(val, i) == Rem(a, i)
    ensures Leading(high, hex) + [DigitChar(Quot(val, i))] == Digits(Quot(a, i), hex)
  {
    hide *;
    BaseIs(hex);
    DigitAt(a, hex, i, k, high, val);
    DigitsEnd(Quot(a, i), hex);
  }

  /** One digit further. */
  lemma WriteRound(a: nat, hex: bool, i: nat, k: nat, high: nat, val: nat)
    requires AtDigit(a, hex, i, k, high, val)
    ensures i > 0 && Quot(val, i) < Base(hex)
    ensures Leading(high, hex) + [DigitChar(Quot(val, i))] == Digits(Quot(a, i), hex)
    ensures k == 0 ==> Quot(i, Base(hex)) == 0 && Quot(a, i) == a
    ensures k > 0 ==> 0 < Quot(i, Base(hex)) < i && Leading(Quot(a, i), hex) == Digits(Quot(a, i), hex)
                      && AtDigit(a, hex, Quot(i, Base(hex)), k - 1, Quot(a, i), Rem(val, i))
  {
    hide DigitChar, Digits;
    var b := Base(hex);
    DigitWritten(a, hex, i, k, high, val);
    if k > 0 {
      LowerPower(i, b, k);
      DivAtLeast(a, i, 1);
      assert |Digits(a / i, hex)| == |Leading(high, hex)| + 1;
    }
  }

  lemma StartDigits(a: nat, hex: bool, i: nat, k: nat)
    requires i == Pow(Base(hex), k) && a < i * Base(hex) && (i == 1 || i <= a) && |Digits(a, hex)| == k + 1
    ensures i > 0 && AtDigit(a, hex, i, k, 0, a) && Leading(0, hex) == []
  {
    DivModIs(a, i * Base(hex), 0, a);
  }

  lemma RoomLeft(a: nat, hex: bool, i: nat, k: nat, high: nat, val: nat)
    requires AtDigit(a, hex, i, k, high, val)
    ensures i > 0 && |Leading(high, hex)| < |Digits(a, hex)|
  {
  }

  /** The two writing loops of itos: the digits of a, from the highest to the lowest power. */
  method WriteDigits(a: nat, hex: bool, str: array<char>, at: nat) returns (pos: nat)
    requires at + |Digits(a, hex)| <= str.Length
    modifies str
    ensures pos == at + |Digits(a, hex)| && str[at..pos] == Digits(a, hex)
    ensures str[..at] == old(str[..at]) && str[pos..] == old(str[pos..])
  {
    hide *;
    var i, k := LargestPower(a, hex);
    StartDigits(a, hex, i, k);
    var val := a;
    ghost var high, done := 0, false;
    pos := at;
    while i != 0
      invariant at <= pos <= str.Length && done == (i == 0)
      invariant !done ==> AtDigit(a, hex, i, k, high, val) && str[at..pos] == Leading(high, hex)
      invariant done ==> str[at..pos] == Digits(a, hex)
      invariant forall j :: 0 <= j < at || pos <= j < str.Length ==> str[j] == old(str[j])
      decreases i
    {
      WriteRound(a, hex, i, k, high, val);
      RoomLeft(a, hex, i, k, high, val);
      ghost var before := str[at..pos];
      var d := Quot(val, i);
      BaseIs(hex);
      str[pos] := DigitChar(d);
      pos := pos + 1;
      assert str[at..pos] == before + [DigitChar(d)] == Digits(Quot(a, i), hex);
      high := Quot(a, i);
      val := Rem(val, i);
      i := Quot(i, Base(hex));
      done := k == 0;
      k := if k == 0 then 0 else k - 1;
    }
  }

  lemma Assembled(s: seq<char>, at: nat, pos: nat, end: nat, was: seq<char>, val: int, hex: bool)
    requires at <= pos <= end <= |s| == |was|
    requires s[..pos] == was[..at] + Prefix(val, hex) && s[pos..end] == Digits(Magnitude(val), hex)
    requires pos == at + |Prefix(val, hex)| && s[end..] == was[end..]
    ensures s[at..end] == Numeral(val, hex) && s[..at] == was[..at]
  {
    assert s[at..pos] == s[..pos][at..];
    assert s[at..end] == s[at..pos] + s[pos..end];
    assert s[..at] == s[..pos][..at];
  }

  /** itos, writing from `at` on. The magnitude of LONG_MIN does not fit in a long, so it is excluded. */
  method Itos(val: int, str: array<char>, at: nat, hex: bool) returns (n: nat)
    requires -LONG_MAX <= val <= LONG_MAX && at + |Numeral(val, hex)| <= str.Length
    modifies str
    ensures n == |Numeral(val, hex)| && str[at..at + n] == Numeral(val, hex)
    ensures str[..at] == old(str[..at]) && str[at + n..] == old(str[at + n..])
  {
    hide DigitChar, Digits;
    var pos, a := at, val;
    if val < 0 {
      a := -val;
      str[pos] := '-';
      pos := pos + 1;
    }
    if hex {
      str[pos] := '0';
      pos := pos + 1;
      str[pos] := 'x';
      pos := pos + 1;
    }
    ghost var before := str[..pos];
    assert before == old(str[..at]) + Prefix(val, hex);
    assert str[pos..] == old(str[pos..]);
    var end := WriteDigits(a, hex, str, pos);
    n := end - at;
    Assembled(str[..], at, pos, end, old(str[..]), val, hex);
  }

  // ----- stoi -----

  /** One round of a parsing loop: not a digit, signed overflow, or the new value. */
  datatype Round = Stop | Overflow | Next(value: int)

  /** The decimal loop adds the character before it subtracts '0', so the sum overflows 48 early. The hex loop
      takes ':' to '?' for the digits 10 to 15. */
  function ParseRound(c: char, ret: int, hex: bool): Round {
    if hex then
      var tmp := if 'A' <= c <= 'F' then c as int - 'A' as int + 10
                 else if 'a' <= c <= 'f' then c as int - 'a' as int + 10
                 else c as int - '0' as int;
      if tmp < 0 || tmp > 15 then Stop
      else if ret * 16 + tmp > INT_MAX then Overflow
      else Next(ret * 16 + tmp)
    else if c < '0' || c > '9' then Stop
    else if ret * 10 + c as int > INT_MAX then Overflow
    else Next(ret * 10 + c as int - '0' as int)
  }

  /** What parsing t from ret gives, and whether all of t was digits; None for signed overflow. */
  function Parse(t: seq<char>, ret: int, hex: bool): Option<(int, bool)> {
    if t == [] then Some((ret, true)) else
    match ParseRound(t[0], ret, hex)
    case Stop => Some((ret, false))
    case Overflow => None
    case Next(v) => Parse(t[1..], v, hex)
  }

  function Signed(negative: bool, r: Option<(int, bool)>): Option<int> {
    if r.None? then None else Some(if negative && r.value.1 then -r.value.0 else r.value.0)
  }

  /** stoi of the characters t before the NUL. A character that is no digit returns without the sign. */
  function Parsed(t: seq<char>): Option<int> {
    var negative := |t| > 0 && t[0] == '-';
    var u := if negative then t[1..] else t;
    var hex := |u| >= 2 && u[0] == '0' && u[1] == 'x';
    Signed(negative, Parse(if hex then u[2..] else u, 0, hex))
  }

  lemma NoNulBefore(str: seq<char>, n: nat)
    requires n < |str| && NUL !in str[..n]
    ensures forall k :: 0 <= k < n ==> str[k] != NUL
  {
    forall k | 0 <= k < n
      ensures str[k] != NUL
    {
      assert str[k] in str[..n];
    }
  }

  /** Either parsing loop, from position `start` on. */
  method ParseLoop(str: seq<char>, start: nat, ghost n: nat, hex: bool) returns (r: Option<(int, bool)>)
    requires start <= n < |str| && str[n] == NUL && NUL !in str[..n]
    ensures r == Parse(str[start..n], 0, hex)
  {
    hide ParseRound;
    NoNulBefore(str, n);
    var pos, ret := start, 0;
    while str[pos] != NUL
      invariant start <= pos <= n
      invariant Parse(str[start..n], 0, hex) == Parse(str[pos..n], ret, hex)
      decreases n - pos
    {
      assert pos < n && str[pos..n][0] == str[pos] && str[pos..n][1..] == str[pos + 1..n];
      match ParseRound(str[pos], ret, hex)
      case Stop => return Some((ret, false));
      case Overflow => return None;
      case Next(v) =>
        ret := v;
        pos := pos + 1;
    }
    r := Some((ret, true));
  }

  /** stoi of a NUL-terminated string. */
  method Stoi(str: seq<char>, ghost n: nat) returns (r: Option<int>)
    requires n < |str| && str[n] == NUL && NUL !in str[..n]
    ensures r == Parsed(str[..n])
  {
    hide Parse;
    var pos, negative, hex := 0, false, false;
    if str[0] == '-' {
      pos := 1;
      negative := true;
    }
    if str[pos] == '0' && str[pos + 1] == 'x' {
      hex := true;
      pos := pos + 2;
    }
    var v := ParseLoop(str, pos, n, hex);
    r := Signed(negative, v);
    assert negative ==> str[..n][1..] == str[1..n];
    assert hex ==> str[pos - 2..n][2..] == str[pos..n];
    assert str[0..n] == str[..n];
  }

  // ----- stoi undoes itos -----

  /** The largest magnitude that parses without overflow. */
  function Bound(hex: bool): nat {
    if hex then INT_MAX else INT_MAX - '0' as int
  }

  lemma ParseDigit(d: nat, ret: nat, hex: bool)
    requires d < Base(hex)
    ensures ParseRound(DigitChar(d), ret, hex)
            == if ret * Base(hex) + d > Bound(hex) then Overflow else Next(ret * Base(hex) + d)
  {
  }

  /** Parsing the digits of n brings the loop to n exactly when n is within the bound. */
  lemma {:induction false} ParseDigits(n: nat, hex: bool, rest: seq<char>)
    ensures Parse(Digits(n, hex) + rest, 0, hex) == if n > Bound(hex) then None else Parse(rest, n, hex)
    decreases n
  {
    hide ParseRound, DigitChar;
    var b := Base(hex);
    if n < b {
      ParseDigit(n, 0, hex);
      assert ([DigitChar(n)] + rest)[1..] == rest;
    } else {
      var tail := [DigitChar(n % b)] + rest;
      assert Digits(n, hex) + rest == Digits(n / b, hex) + tail;
      ParseDigits(n / b, hex, tail);
      ParseDigit(n % b, n / b, hex);
      assert tail[1..] == rest;
    }
  }

  lemma {:induction false} DecimalDigits(n: nat)
    ensures forall c <- Digits(n, false) :: '0' <= c <= '9'
    decreases n
  {
    if n >= 10 {
      DecimalDigits(n / 10);
    }
  }

  /** The text after a numeral does not join it: it is empty or starts with no digit, nor makes "0" into "0x". */
  ghost predicate Detached(v: int, hex: bool, rest: seq<char>) {
    rest != [] ==> ParseRound(rest[0], 0, hex).Stop? && (v == 0 && !hex ==> rest[0] != 'x')
  }

  /** stoi undoes itos in both bases: exactly the magnitudes up to 2147483599 in decimal and 2147483647 in hex come
      back, with their sign when the numeral is the whole string and without it when other text follows; every larger
      one overflows. */
  lemma StoiUndoesItos(v: int, hex: bool, rest: seq<char>)
    requires Detached(v, hex, rest)
    ensures Parsed(Numeral(v, hex) + rest)
            == if Magnitude(v) > Bound(hex) then None else Some(if rest == [] then v else Magnitude(v))
    ensures Bound(false) == 2147483599 && Bound(true) == 2147483647
  {
    hide DigitChar, Digits, Parse, ParseRound, Detached;
    var digits := Digits(Magnitude(v), hex) + rest;
    var u := (if hex then ['0', 'x'] else []) + digits;
    var t := Numeral(v, hex) + rest;
    PrefixFound(v, hex, rest);
    ParseDigits(Magnitude(v), hex, rest);
    assert v < 0 ==> t == ['-'] + u && t[1..] == u;
    assert v >= 0 ==> t == u;
    assert hex ==> u[2..] == digits;
    assert !hex ==> u == digits;
    StopsAt(v, hex, rest, Magnitude(v));
  }

  lemma StopsAt(v: int, hex: bool, rest: seq<char>, n: nat)
    requires Detached(v, hex, rest)
    ensures Parse(rest, n, hex) == Some((n, rest == []))
  {
  }

  /** The base prefix is seen exactly when it was written, and the sign is not confused with a digit. */
  lemma PrefixFound(v: int, hex: bool, rest: seq<char>)
    requires Detached(v, hex, rest)
    ensures !hex ==> var u := Digits(Magnitude(v), hex) + rest; u[0] != '-' && !(|u| >= 2 && u[0] == '0' && u[1] == 'x')
  {
    if !hex {
      var digits := Digits(Magnitude(v), hex);
      DecimalDigits(Magnitude(v));
      assert digits[0] in digits;
      if |digits| >= 2 {
        assert digits[1] in digits;
      }
    }
  }

  // ----- what numerals mean -----

  /** The characters that the parsing loops take for digits. */
  predicate IsDigit(c: char, hex: bool) {
    if hex then '0' <= c <= '?' || 'A' <= c <= 'F' || 'a' <= c <= 'f' else '0' <= c <= '9'
  }

  function DigitValue(c: char, hex: bool): nat
    requires IsDigit(c, hex)
  {
    if 'A' <= c <= 'F' then 10 + (c as int - 'A' as int)
    else if 'a' <= c <= 'f' then 10 + (c as int - 'a' as int)
    else c as int - '0' as int
  }

  predicate AllDigits(ds: seq<char>, hex: bool) {
    forall i :: 0 <= i < |ds| ==> IsDigit(ds[i], hex)
  }

  /** The number that digits stand for, in base 16 or 10. */
  function Value(ds: seq<char>, hex: bool): nat
    requires AllDigits(ds, hex)
  {
    if ds == [] then 0
    else (if hex then 16 else 10) * Value(ds[..|ds| - 1], hex) + DigitValue(ds[|ds| - 1], hex)
  }

  lemma HexDigits()
    ensures DigitChar(10) == 'A' && DigitChar(11) == 'B' && DigitChar(12) == 'C'
    ensures DigitChar(13) == 'D' && DigitChar(14) == 'E' && DigitChar(15) == 'F'
    ensures forall d: nat :: d < 10 ==> DigitChar(d) as int == '0' as int + d
  {
  }

  lemma DigitMeans(d: nat, hex: bool)
    requires d < Base(hex)
    ensures var c := DigitChar(d);
            && IsDigit(c, hex) && DigitValue(c, hex) == d && (c == '0' <==> d == 0)
            && ('0' <= c <= '9' || (hex && 'A' <= c <= 'F'))
  {
  }

  lemma ValueSnoc(ds: seq<char>, c: char, hex: bool)
    requires AllDigits(ds, hex) && IsDigit(c, hex)
    ensures AllDigits(ds + [c], hex) && Value(ds + [c], hex) == Base(hex) * Value(ds, hex) + DigitValue(c, hex)
  {
    assert (ds + [c])[..|ds + [c]| - 1] == ds;
  }

  /** Digits are 0 to 9 and, in base 16, A to F; there are no leading zeros; and they stand for n. */
  lemma {:induction false} DigitsMean(n: nat, hex: bool)
    ensures var ds := Digits(n, hex);
            && AllDigits(ds, hex) && Value(ds, hex) == n && (ds[0] == '0' ==> n == 0 && |ds| == 1)
            && forall i :: 0 <= i < |ds| ==> '0' <= ds[i] <= '9' || (hex && 'A' <= ds[i] <= 'F')
    decreases n
  {
    hide DigitChar, IsDigit, DigitValue, Value, AllDigits;
    var b := Base(hex);
    DigitMeans(n % b, hex);
    if n < b {
      OneDigitMeans(n, hex);
    } else {
      DigitsMean(n / b, hex);
      ValueSnoc(Digits(n / b, hex), DigitChar(n % b), hex);
      DivAtLeast(n, b, 1);
      Euclid(n, b);
    }
  }

  lemma OneDigitMeans(n: nat, hex: bool)
    requires n < Base(hex)
    ensures AllDigits([DigitChar(n)], hex) && Value([DigitChar(n)], hex) == n && (DigitChar(n) == '0' ==> n == 0)
    ensures '0' <= DigitChar(n) <= '9' || (hex && 'A' <= DigitChar(n) <= 'F')
  {
    DigitMeans(n, hex);
    assert [DigitChar(n)][..0] == [];
  }

  /** What itos writes for any long: a minus sign exactly for a negative number, 0x in base 16, and the digits of the
      magnitude. */
  lemma NumeralMeans(v: int, hex: bool) returns (ds: seq<char>)
    ensures Numeral(v, hex) == (if v < 0 then ['-'] else []) + (if hex then ['0', 'x'] else []) + ds
    ensures AllDigits(ds, hex) && Value(ds, hex) == if v < 0 then -v else v
    ensures ds != [] && (ds[0] == '0' ==> v == 0 && |ds| == 1)
    ensures forall i :: 0 <= i < |ds| ==> '0' <= ds[i] <= '9' || (hex && 'A' <= ds[i] <= 'F')
  {
    hide Digits, IsDigit, Value;
    ds := Digits(Magnitude(v), hex);
    DigitsMean(Magnitude(v), hex);
  }

  /** Parsing any digits arrives at the number they stand for, or overflows, exactly by the bound. */
  lemma {:induction false} ParseAnyDigits(ds: seq<char>, hex: bool, rest: seq<char>)
    requires AllDigits(ds, hex)
    ensures Parse(ds + rest, 0, hex) == if Value(ds, hex) > Bound(hex) then None else Parse(rest, Value(ds, hex), hex)
    decreases |ds|
  {
    if ds == [] {
      assert ds + rest == rest;
    } else {
      var n := |ds| - 1;
      var tail := [ds[n]] + rest;
      ParseAnyDigits(ds[..n], hex, tail);
      assert ds[..n] + tail == ds + rest && tail[1..] == rest;
      OneDigit(ds[n], Value(ds[..n], hex), hex);
    }
  }

  lemma OneDigit(c: char, ret: nat, hex: bool)
    requires IsDigit(c, hex)
    ensures var v := (if hex then 16 else 10) * ret + DigitValue(c, hex);
            v >= ret && ParseRound(c, ret, hex) == if v > Bound(hex) then Overflow else Next(v)
  {
  }

  lemma NoDigit(c: char, ret: nat, hex: bool)
    requires !IsDigit(c, hex)
    ensures ParseRound(c, ret, hex) == Stop
  {
  }

  /** stoi of any text: an optional minus sign, an optional 0x, digits, and what follows them. */
  lemma StoiMeans(negative: bool, hex: bool, ds: seq<char>, rest: seq<char>)
    requires AllDigits(ds, hex) && (rest != [] ==> !IsDigit(rest[0], hex))
    requires !hex ==> !(['0', 'x'] <= ds + rest) && (!negative ==> !(['-'] <= ds + rest))
    ensures var v: int := Value(ds, hex);
            Parsed((if negative then ['-'] else []) + ((if hex then ['0', 'x'] else []) + (ds + rest)))
            == if v > Bound(hex) then None else Some(if negative && rest == [] then -v else v)
  {
    hide ParseRound, IsDigit, Value, Parse;
    var u := (if hex then ['0', 'x'] else []) + (ds + rest);
    var t := (if negative then ['-'] else []) + u;
    ParseAnyDigits(ds, hex, rest);
    EndsAt(rest, Value(ds, hex), hex);
    assert negative ==> t[1..] == u;
    assert !negative ==> t == u;
    assert hex ==> u[2..] == ds + rest;
    assert !hex ==> u == ds + rest;
    if !hex { NotHex(u); }
  }

  lemma EndsAt(rest: seq<char>, n: nat, hex: bool)
    requires rest != [] ==> !IsDigit(rest[0], hex)
    ensures Parse(rest, n, hex) == Some((n, rest == []))
  {
    if rest != [] { NoDigit(rest[0], n, hex); }
  }

  lemma NotHex(u: seq<char>)
    requires !(['0', 'x'] <= u)
    ensures !(|u| >= 2 && u[0] == '0' && u[1] == 'x')
  {
    if |u| >= 2 { assert u[..2] == [u[0], u[1]]; }
  }
}
