/**
 device/console.c: printing into the 80 by 25 text screen.  The screen is shown to be a window onto a
 tape without end, on which text is typed and nothing ever moves.
 */
module Console {
  import opened Arithmetic
  import opened Types
  import opened MemUtils

  const WIDTH := 80
  const HEIGHT := 25
  const SIZE := WIDTH * HEIGHT
  const LAST_ROW := SIZE - WIDTH
  const TAB_SIZE := 8
  const TAB: byte := 9
  const NEWLINE: byte := 10
  const SPACE: byte := 32

  datatype Cell = Cell(ch: byte, attr: byte)

  /** The cells of the video memory: character and attribute alternate. */
  ghost function Screen(mem: seq<byte>): (s: seq<Cell>)
    requires |mem| == 2 * SIZE
    ensures |s| == SIZE
  {
    seq(SIZE, k requires 0 <= k < SIZE => Cell(mem[2 * k], mem[2 * k + 1]))
  }

  predicate Moves(c: byte) {
    c == NEWLINE || c == TAB
  }

  /** Where the cursor is after c. */
  function Advance(at: nat, c: byte): nat {
    if c == NEWLINE then at + (WIDTH - at % WIDTH)
    else if c == TAB then at + (TAB_SIZE - at % TAB_SIZE)
    else at + 1
  }

  // ----- the tape -----

  /** The cursor's place on the tape and the characters typed so far, by place. */
  datatype Tape = Tape(cursor: nat, typed: map<nat, byte>)

  ghost function Type(t: Tape, c: byte): Tape {
    Tape(Advance(t.cursor, c), if Moves(c) then t.typed else t.typed[t.cursor := c])
  }

  ghost function TypeAll(t: Tape, text: seq<byte>): Tape {
    if text == [] then t else Type(TypeAll(t, text[..|text| - 1]), text[|text| - 1])
  }

  /** The cell at place p of the tape.  It starts as the screen `first`, continued by blank rows in the
      colours of its last row. */
  ghost function CellAt(first: seq<Cell>, t: Tape, p: nat): Cell
    requires |first| == SIZE
  {
    var untouched := if p < SIZE then first[p] else Cell(SPACE, first[LAST_ROW + p % WIDTH].attr);
    if p in t.typed then Cell(t.typed[p], untouched.attr) else untouched
  }

  /** Where the window starts. */
  ghost function Top(cursor: nat): nat {
    if cursor < SIZE then 0 else cursor / WIDTH * WIDTH - LAST_ROW
  }

  ghost function Window(first: seq<Cell>, t: Tape): (s: seq<Cell>)
    requires |first| == SIZE
    ensures |s| == SIZE
  {
    seq(SIZE, k requires 0 <= k < SIZE => CellAt(first, t, Top(t.cursor) + k))
  }

  /** The window is the earliest one, by whole rows, that contains the cursor. */
  lemma TopIsEarliest(cursor: nat, top: nat)
    ensures Top(cursor) % WIDTH == 0 && Top(cursor) <= cursor < Top(cursor) + SIZE
    ensures top % WIDTH == 0 && cursor < top + SIZE ==> Top(cursor) <= top
  {
  }

  // ----- one character on the screen -----

  ghost function Scrolled(s: seq<Cell>): (r: seq<Cell>)
    requires |s| == SIZE
    ensures |r| == SIZE
  {
    seq(SIZE, k requires 0 <= k < SIZE => if k < LAST_ROW then s[k + WIDTH] else Cell(SPACE, s[k].attr))
  }

  ghost function Put(s: seq<Cell>, offset: nat, c: byte): (r: (seq<Cell>, nat))
    requires |s| == SIZE && offset < SIZE
    ensures |r.0| == SIZE
  {
    var shown := if Moves(c) then s else s[offset := Cell(c, s[offset].attr)];
    var next := Advance(offset, c);
    if next >= SIZE then (Scrolled(shown), LAST_ROW) else (shown, next)
  }

  ghost predicate Ahead(t: Tape) {
    forall p <- t.typed :: p < t.cursor
  }

  /** Scrolling at most once per character keeps the screen on the tape: what the code does to the
      screen is what typing does to the tape. */
  lemma PutIsTyping(first: seq<Cell>, t: Tape, c: byte)
    requires |first| == SIZE && Ahead(t)
    ensures Top(t.cursor) <= t.cursor < Top(t.cursor) + SIZE && Ahead(Type(t, c))
    ensures var next := Type(t, c);
            Put(Window(first, t), t.cursor - Top(t.cursor), c) == (Window(first, next), next.cursor - Top(next.cursor))
  {
    hide Advance, Top, CellAt, Scrolled;
    var next := Type(t, c);
    var top := Top(t.cursor);
    TopIsEarliest(t.cursor, 0);
    var s := Window(first, t);
    var offset := t.cursor - top;
    var shown := if Moves(c) then s else s[offset := Cell(c, s[offset].attr)];
    AdvanceShifts(t.cursor, c);
    CharacterShown(first, t, c, top, shown);
    if Advance(offset, c) >= SIZE {
      ScrollShown(first, next, top, shown);
      assert Scrolled(shown) == Window(first, next);
    } else {
      assert shown == Window(first, next);
    }
  }

  /** Writing the character to the screen shows the cells of the tape with that character typed. */
  lemma CharacterShown(first: seq<Cell>, t: Tape, c: byte, top: nat, shown: seq<Cell>)
    requires |first| == SIZE && top == Top(t.cursor) && top <= t.cursor < top + SIZE
    requires var s := Window(first, t);
             shown == if Moves(c) then s else s[t.cursor - top := Cell(c, s[t.cursor - top].attr)]
    ensures |shown| == SIZE && forall k :: 0 <= k < SIZE ==> shown[k] == CellAt(first, Type(t, c), top + k)
  {
    hide Top, Advance;
    forall k | 0 <= k < SIZE ensures shown[k] == CellAt(first, Type(t, c), top + k) {
      assert Window(first, t)[k] == CellAt(first, t, top + k);
      assert k != t.cursor - top ==> top + k != t.cursor;
    }
  }

  /** Scrolling shows the cells one row below. */
  lemma ScrollShown(first: seq<Cell>, t: Tape, top: nat, shown: seq<Cell>)
    requires |first| == |shown| == SIZE && Ahead(t) && t.cursor <= top + SIZE
    requires forall k :: 0 <= k < SIZE ==> shown[k] == CellAt(first, t, top + k)
    ensures forall k :: 0 <= k < SIZE ==> Scrolled(shown)[k] == CellAt(first, t, top + WIDTH + k)
  {
    hide CellAt;
    forall k | 0 <= k < SIZE ensures Scrolled(shown)[k] == CellAt(first, t, top + WIDTH + k) {
      if k >= LAST_ROW {
        NewRow(first, t, top + k);
      } else {
        assert shown[k + WIDTH] == CellAt(first, t, top + (k + WIDTH));
      }
    }
  }

  /** The cursor moves on the screen as on the tape, and leaves the screen only for the first cell below it. */
  lemma AdvanceShifts(cursor: nat, c: byte)
    ensures Top(cursor) <= cursor
    ensures var (top, next) := (Top(cursor), Advance(cursor - Top(cursor), c));
            && cursor - top < next <= SIZE && Advance(cursor, c) == top + next
            && Top(top + next) == if next == SIZE then top + WIDTH else top
  {
    hide Top, Advance;
    TopIsEarliest(cursor, 0);
    AdvanceFromRow(Top(cursor), cursor - Top(cursor), c);
    TopMoves(cursor, Advance(cursor - Top(cursor), c));
  }

  lemma Remainders(row: nat, offset: nat)
    ensures (80 * row + offset) % 80 == offset % 80 && (80 * row + offset) % 8 == offset % 8
  {
    DivModIs(80 * row + offset, 80, row + offset / 80, offset % 80);
    DivModIs(80 * row + offset, 8, 10 * row + offset / 8, offset % 8);
  }

  lemma AdvanceFromRow(top: nat, offset: nat, c: byte)
    requires top % WIDTH == 0 && offset < SIZE
    ensures offset < Advance(offset, c) <= SIZE && Advance(top + offset, c) == top + Advance(offset, c)
  {
    var row := top / WIDTH;
    assert top == WIDTH * row;
    Remainders(row, offset);
  }

  lemma TopMoves(cursor: nat, next: nat)
    requires Top(cursor) <= cursor && cursor - Top(cursor) < next <= SIZE
    ensures Top(Top(cursor) + next) == if next == SIZE then Top(cursor) + WIDTH else Top(cursor)
  {
  }

  /** A row that comes into view is blank and has the colours of the row above. */
  lemma NewRow(first: seq<Cell>, t: Tape, p: nat)
    requires |first| == SIZE && p >= LAST_ROW && p + WIDTH >= t.cursor && Ahead(t)
    ensures CellAt(first, t, p + WIDTH) == Cell(SPACE, CellAt(first, t, p).attr)
  {
  }

  // ----- texts -----

  lemma {:induction false} TypeAllKeepsAhead(t: Tape, text: seq<byte>)
    requires Ahead(t)
    ensures Ahead(TypeAll(t, text)) && t.cursor + |text| <= TypeAll(t, text).cursor
  {
    if text != [] {
      TypeAllKeepsAhead(t, text[..|text| - 1]);
    }
  }

  /** Printing in two calls is printing once: the second call may start from the screen that the first
      call left, although that screen has forgotten the rows that scrolled away. */
  lemma {:induction false} PrintingComposes(first: seq<Cell>, t: Tape, text: seq<byte>)
    requires |first| == SIZE && Ahead(t)
    ensures Top(t.cursor) <= t.cursor
    ensures var again := TypeAll(Tape(t.cursor - Top(t.cursor), map[]), text);
            var on := TypeAll(t, text);
            && Window(Window(first, t), again) == Window(first, on)
            && again.cursor - Top(again.cursor) == on.cursor - Top(on.cursor)
  {
    hide Put;
    TopIsEarliest(t.cursor, 0);
    var start := Tape(t.cursor - Top(t.cursor), map[]);
    if text == [] {
      forall k | 0 <= k < SIZE
        ensures Window(Window(first, t), start)[k] == Window(first, t)[k]
      {
        assert Top(start.cursor) == 0 && CellAt(Window(first, t), start, k) == Window(first, t)[k];
      }
    } else {
      var front, c := text[..|text| - 1], text[|text| - 1];
      PrintingComposes(first, t, front);
      TypeAllKeepsAhead(t, front);
      TypeAllKeepsAhead(start, front);
      PutIsTyping(first, TypeAll(t, front), c);
      PutIsTyping(Window(first, t), TypeAll(start, front), c);
    }
  }

  /** A newline moves to the start of the next row and a tab to the next multiple of 8, and neither types anything; any
      other character is typed where the cursor is, which moves on by one. */
  lemma LastCharacter(t: Tape, text: seq<byte>)
    requires text != []
    ensures var (before, after) := (TypeAll(t, text[..|text| - 1]), TypeAll(t, text));
            match text[|text| - 1]
            case 10 =>
              after.cursor % 80 == 0 && before.cursor < after.cursor <= before.cursor + 80
                  && after.typed == before.typed
            case 9 =>
              after.cursor % 8 == 0 && before.cursor < after.cursor <= before.cursor + 8 && after.typed == before.typed
            case c => after.cursor == before.cursor + 1 && after.typed == before.typed[before.cursor := c]
  {
    var at := TypeAll(t, text[..|text| - 1]).cursor;
    NextMultiple(at, 80);
    NextMultiple(at, 8);
  }

  lemma NextMultiple(x: nat, n: nat)
    requires n > 0
    ensures (x + (n - x % n)) % n == 0
  {
    Euclid(x, n);
    MulSum(x / n, 1, n);
    DivModIs(x + (n - x % n), n, x / n + 1, 0);
  }

  /** Neither newline nor tab. */
  ghost predicate Plain(text: seq<byte>) {
    forall i :: 0 <= i < |text| ==> text[i] != 10 && text[i] != 9
  }

  lemma {:induction false} TypeAllSplits(t: Tape, a: seq<byte>, b: seq<byte>)
    ensures TypeAll(t, a + b) == TypeAll(TypeAll(t, a), b)
  {
    if b == [] {
      assert a + b == a;
    } else {
      var n := |b| - 1;
      TypeAllSplits(t, a, b[..n]);
      assert (a + b)[..|a + b| - 1] == a + b[..n] && (a + b)[|a + b| - 1] == b[n];
    }
  }

  lemma {:induction false} PlainTextIsTyped(t: Tape, text: seq<byte>, i: nat)
    requires Plain(text) && i < |text|
    ensures var r := TypeAll(t, text);
            r.cursor == t.cursor + |text| && t.cursor + i in r.typed && r.typed[t.cursor + i] == text[i]
  {
    var front := text[..|text| - 1];
    if i < |front| {
      PlainTextIsTyped(t, front, i);
    } else if front != [] {
      PlainTextIsTyped(t, front, 0);
    }
  }

  /** Text without newlines and tabs stands on the screen in order, as far as it has not scrolled away. */
  lemma PlainTextIsShown(first: seq<Cell>, t: Tape, text: seq<byte>, i: nat)
    requires |first| == SIZE && Plain(text) && i < |text|
    ensures var r := TypeAll(t, text);
            var p := t.cursor + i - Top(r.cursor);
            p < SIZE && (p >= 0 ==> Window(first, r)[p].ch == text[i])
  {
    hide Top, TypeAll;
    var r := TypeAll(t, text);
    PlainTextIsTyped(t, text, i);
    TopIsEarliest(r.cursor, 0);
    var p := t.cursor + i - Top(r.cursor);
    if p >= 0 {
      assert Window(first, r)[p] == CellAt(first, r, Top(r.cursor) + p) && Top(r.cursor) + p == t.cursor + i;
    }
  }

  /** What scrolled in and has not been typed on is blank. */
  lemma UntypedIsBlank(first: seq<Cell>, t: Tape, k: nat)
    requires |first| == SIZE && k < SIZE && Top(t.cursor) + k >= SIZE && Top(t.cursor) + k !in t.typed
    ensures Window(first, t)[k].ch == 32
  {
    assert Window(first, t)[k] == CellAt(first, t, Top(t.cursor) + k);
  }

  /** After a newline the text goes on at the start of the row below, and stands there in order. */
  lemma LineIsShown(first: seq<Cell>, t: Tape, a: seq<byte>, b: seq<byte>, i: nat)
    requires |first| == SIZE && Plain(b) && i < |b|
    ensures var r := TypeAll(t, a + [10] + b);
            var p := (TypeAll(t, a).cursor / 80 + 1) * 80 + i - Top(r.cursor);
            p < SIZE && (p >= 0 ==> Window(first, r)[p].ch == b[i])
  {
    hide Top, TypeAll;
    LastCharacter(t, a + [10]);
    assert (a + [10])[..|a|] == a && (a + [10])[|a|] == 10;
    NextRow(TypeAll(t, a).cursor, 80, TypeAll(t, a + [10]).cursor);
    TypeAllSplits(t, a + [10], b);
    PlainTextIsShown(first, TypeAll(t, a + [10]), b, i);
  }

  /** After a tab it goes on at the next multiple of 8. */
  lemma TabbedIsShown(first: seq<Cell>, t: Tape, a: seq<byte>, b: seq<byte>, i: nat)
    requires |first| == SIZE && Plain(b) && i < |b|
    ensures var r := TypeAll(t, a + [9] + b);
            var p := (TypeAll(t, a).cursor / 8 + 1) * 8 + i - Top(r.cursor);
            p < SIZE && (p >= 0 ==> Window(first, r)[p].ch == b[i])
  {
    hide Top, TypeAll;
    LastCharacter(t, a + [9]);
    assert (a + [9])[..|a|] == a && (a + [9])[|a|] == 9;
    NextRow(TypeAll(t, a).cursor, 8, TypeAll(t, a + [9]).cursor);
    TypeAllSplits(t, a + [9], b);
    PlainTextIsShown(first, TypeAll(t, a + [9]), b, i);
  }

  lemma NextRow(x: nat, n: nat, y: nat)
    requires n > 0 && y % n == 0 && x < y <= x + n
    ensures y == (x / n + 1) * n
  {
    Euclid(x, n);
    Euclid(y, n);
    MulSum(x / n, 1, n);
    if y / n <= x / n { MulMono(y / n, x / n, n); }
    if y / n >= x / n + 2 { MulMono(x / n + 2, y / n, n); MulSum(x / n, 2, n); }
  }

  /** Where the cursor stands in the window after a text that ends in a newline or a tab. */
  lemma ColumnAfter(t: Tape, text: seq<byte>)
    requires text != []
    ensures var r := TypeAll(t, text);
            && Top(r.cursor) <= r.cursor
            && (text[|text| - 1] == 10 ==> (r.cursor - Top(r.cursor)) % 80 == 0)
            && (text[|text| - 1] == 9 ==> (r.cursor - Top(r.cursor)) % 8 == 0)
  {
    hide Top, TypeAll;
    LastCharacter(t, text);
    var r := TypeAll(t, text);
    TopIsEarliest(r.cursor, 0);
    var k := Top(r.cursor) / 80;
    assert Top(r.cursor) == 80 * k && r.cursor == 80 * k + (r.cursor - Top(r.cursor));
    Remainders(k, r.cursor - Top(r.cursor));
  }

  // ----- the video memory -----

  /** The screen after the move and the first rounds of the blanking loop. */
  ghost function Blanked(s: seq<Cell>, j: nat): (r: seq<Cell>)
    requires |s| == SIZE
    ensures |r| == SIZE
  {
    seq(SIZE, k requires 0 <= k < SIZE =>
      if k < LAST_ROW then s[k + WIDTH] else if k < j then Cell(SPACE, s[k].attr) else s[k])
  }

  lemma ScreenPut(mem: seq<byte>, at: nat, c: byte)
    requires |mem| == 2 * SIZE && at < SIZE
    ensures Screen(mem[2 * at := c]) == Screen(mem)[at := Cell(c, Screen(mem)[at].attr)]
  {
  }

  lemma BlankedNext(s: seq<Cell>, j: nat)
    requires |s| == SIZE && LAST_ROW <= j < SIZE
    ensures Blanked(s, j + 1) == Blanked(s, j)[j := Cell(SPACE, Blanked(s, j)[j].attr)]
    ensures Blanked(s, SIZE) == Scrolled(s)
  {
  }

  lemma MoveIsBlanked(mem: seq<byte>, r: seq<byte>)
    requires |mem| == 2 * SIZE && Overwritten(mem, 0, mem[WIDTH * 2..SIZE * 2], r)
    ensures |r| == 2 * SIZE && Screen(r) == Blanked(Screen(mem), LAST_ROW)
  {
    forall k | 0 <= k < SIZE
      ensures Screen(r)[k] == Blanked(Screen(mem), LAST_ROW)[k]
    {
      var moved := mem[WIDTH * 2..SIZE * 2];
      assert k < LAST_ROW ==> r[2 * k] == moved[2 * k] && r[2 * k + 1] == moved[2 * k + 1];
    }
  }

  // ----- the code -----

  class Console {
    const video: array<byte>
    var offset: int

    constructor (video: array<byte>, x: int, y: int)
      requires video.Length == 2 * SIZE && 0 <= x < WIDTH && 0 <= y < HEIGHT
      ensures Valid() && this.video == video && offset == y * WIDTH + x
    {
      this.video := video;
      offset := y * WIDTH + x;
    }

    ghost predicate Valid()
      reads this
    {
      video.Length == 2 * SIZE && 0 <= offset < SIZE
    }

    /** The rows move up one place and the last one is blanked. */
    method Scroll()
      requires Valid()
      modifies video
      ensures Screen(video[..]) == Scrolled(old(Screen(video[..])))
    {
      hide Screen, Blanked, Scrolled;
      ghost var mem := video[..];
      MemcpyWithin(video, 0, WIDTH * 2, (HEIGHT - 1) * WIDTH * 2);
      MoveIsBlanked(mem, video[..]);
      for j := LAST_ROW to SIZE
        invariant Screen(video[..]) == Blanked(Screen(mem), j)
      {
        ScreenPut(video[..], j, SPACE);
        BlankedNext(Screen(mem), j);
        ghost var was := video[..];
        video[2 * j] := SPACE;
        assert video[..] == was[2 * j := SPACE];
      }
      BlankedNext(Screen(mem), LAST_ROW);
    }

    /** One round of the loop. */
    method PutChar(c: byte, at: nat) returns (next: nat)
      requires Valid() && at < SIZE
      modifies video
      ensures (Screen(video[..]), next) == Put(old(Screen(video[..])), at, c)
    {
      hide Screen, Scrolled;
      ghost var mem := video[..];
      next := Advance(at, c);
      if !Moves(c) {
        ScreenPut(mem, at, c);
        video[2 * at] := c;
        assert video[..] == mem[2 * at := c];
      }
      if next >= SIZE {
        Scroll();
        next := LAST_ROW;
      }
    }

    /** console_print_string: the screen becomes the window onto the tape on which all of `buf` is typed,
        and the result is the cursor's place in it. */
    method PrintString(buf: seq<byte>) returns (at: nat)
      requires Valid()
      modifies video
      ensures at < SIZE
      ensures var t := TypeAll(Tape(offset, map[]), buf);
              Screen(video[..]) == Window(old(Screen(video[..])), t) && at == t.cursor - Top(t.cursor)
      ensures buf != [] && buf[|buf| - 1] == 10 ==> at % 80 == 0
      ensures buf != [] && buf[|buf| - 1] == 9 ==> at % 8 == 0
    {
      hide Screen, Window, TypeAll, Put, Top;
      ghost var first := Screen(video[..]);
      ghost var start := Tape(offset, map[]);
      at := offset;
      Begin(first, start);
      for i := 0 to |buf|
        invariant at < SIZE
        invariant Screen(video[..]) == Window(first, TypeAll(start, buf[..i]))
        invariant at == TypeAll(start, buf[..i]).cursor - Top(TypeAll(start, buf[..i]).cursor)
      {
        at := PutChar(buf[i], at);
        Continue(first, start, buf, i);
      }
      assert buf[..|buf|] == buf;
      if buf != [] { ColumnAfter(start, buf); }
    }

    /** printk with its text already formatted. */
    method Printk(buf: seq<byte>)
      requires Valid()
      modifies this`offset, video
      ensures Valid()
      ensures var t := TypeAll(Tape(old(offset), map[]), buf);
              Screen(video[..]) == Window(old(Screen(video[..])), t) && offset == t.cursor - Top(t.cursor)
    {
      var next := PrintString(buf);
      offset := next / WIDTH * WIDTH + next % WIDTH;
    }
  }

  lemma Begin(first: seq<Cell>, start: Tape)
    requires |first| == SIZE && start.cursor < SIZE && start.typed == map[]
    ensures Ahead(start) && TypeAll(start, []) == start && Window(first, start) == first && Top(start.cursor) == 0
  {
    assert Top(start.cursor) == 0;
    forall k | 0 <= k < SIZE
      ensures Window(first, start)[k] == first[k]
    {
      assert CellAt(first, start, k) == first[k];
    }
  }

  lemma Continue(first: seq<Cell>, start: Tape, buf: seq<byte>, i: nat)
    requires |first| == SIZE && Ahead(start) && i < |buf|
    ensures var (t, next) := (TypeAll(start, buf[..i]), TypeAll(start, buf[..i + 1]));
            && Top(t.cursor) <= t.cursor < Top(t.cursor) + SIZE
            && Put(Window(first, t), t.cursor - Top(t.cursor), buf[i])
               == (Window(first, next), next.cursor - Top(next.cursor))
            && next.cursor - Top(next.cursor) < SIZE
  {
    hide Put, Window, Top;
    assert buf[..i + 1][..i] == buf[..i];
    TypeAllKeepsAhead(start, buf[..i]);
    assert TypeAll(start, buf[..i + 1]) == Type(TypeAll(start, buf[..i]), buf[i]);
    PutIsTyping(first, TypeAll(start, buf[..i]), buf[i]);
    TopIsEarliest(TypeAll(start, buf[..i + 1]).cursor, 0);
  }
}
