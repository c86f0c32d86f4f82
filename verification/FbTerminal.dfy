/** What a terminal does on whole control sequences (kernel/drivers/fbcon.c), as its manual would
    say it: the bytes that are sent, and where the cursor, the cells and the colours are then. */
module FbTerminal {
  import opened FbConsole
  import A = Accounts

  type Bytes = seq<Byte>

  const ESC: Byte := 0x1B
  const BRACKET: Byte := 0x5B
  const SEMICOLON: Byte := 0x3B
  const QUESTION: Byte := 0x3F

  /** The terminal after a string of bytes, or after the first that breaks it. */
  ghost function After(t: Term, rows: nat, cols: nat, bs: Bytes): Term
    decreases |bs|
  {
    if bs == [] || !TermOk(t, rows, cols) then t else After(Meaning(t, rows, cols, bs[0]), rows, cols, bs[1..])
  }

  lemma {:induction false} AfterMore(t: Term, rows: nat, cols: nat, a: Bytes, b: Bytes)
    ensures After(t, rows, cols, a + b) == After(After(t, rows, cols, a), rows, cols, b)
    decreases |a|
  {
    hide TermOk, Meaning;
    if a == [] {
      assert a + b == b;
    } else if TermOk(t, rows, cols) {
      assert (a + b)[0] == a[0] && (a + b)[1..] == a[1..] + b;
      AfterMore(Meaning(t, rows, cols, a[0]), rows, cols, a[1..], b);
    }
  }

  lemma AfterOne(t: Term, rows: nat, cols: nat, b: Byte)
    requires TermOk(t, rows, cols)
    ensures After(t, rows, cols, [b]) == Meaning(t, rows, cols, b)
  {
    hide TermOk, Meaning;
    assert [b][1..] == [];
  }

  /** A number printed in decimal. */
  function Printed(n: nat): Bytes { A.Digits(n) }

  /** `ESC [ n final`, and `ESC [ n ; m final`. */
  function With(n: nat, final: char): Bytes
    requires final as int < 256
  {
    [ESC, BRACKET] + Printed(n) + [final as int]
  }

  function WithTwo(n: nat, m: nat, final: char): Bytes
    requires final as int < 256
  {
    [ESC, BRACKET] + Printed(n) + [SEMICOLON] + Printed(m) + [final as int]
  }

  /** A terminal inside a sequence, with some parameters so far. */
  function Inside(t: Term, ps: seq<nat>): Term
    requires |ps| <= MAX_PARAMS
  {
    t.(state := Csi, count := |ps|, priv := false, params := ps + NoParams()[|ps|..])
  }

  /** A byte that ends a sequence. */
  predicate Ends(final: char)
  {
    final as int < 256 && final != '?' && final != ';' && !('0' <= final <= '9')
  }

  /* ---- the bytes of a sequence ---- */

  lemma InsideOk(t: Term, rows: nat, cols: nat, ps: seq<nat>)
    requires TermOk(t, rows, cols) && |ps| <= MAX_PARAMS && Fit(ps)
    ensures TermOk(Inside(t, ps), rows, cols)
  {
  }

  lemma Opened(t: Term, rows: nat, cols: nat)
    requires TermOk(t, rows, cols) && t.state == Normal
    ensures After(t, rows, cols, [ESC, BRACKET]) == Inside(t, [])
  {
    hide Control, Print, Tab, Newline, Backspace;
    var u := t.(state := Escape);
    assert Meaning(t, rows, cols, ESC) == u && TermOk(u, rows, cols);
    assert [ESC, BRACKET] == [ESC] + [BRACKET];
    AfterMore(t, rows, cols, [ESC], [BRACKET]);
    AfterOne(t, rows, cols, ESC);
    AfterOne(u, rows, cols, BRACKET);
    assert [] + NoParams()[0..] == NoParams();
  }

  /** A printed number becomes the parameter it stands for. */
  lemma {:induction false} NumberTaken(t: Term, rows: nat, cols: nat, ps: seq<nat>, n: nat)
    requires TermOk(t, rows, cols) && |ps| < MAX_PARAMS && Fit(ps) && n <= INT_MAX
    ensures After(if ps == [] then Inside(t, [])
      else Inside(t, ps + [0]), rows, cols, Printed(n)) == Inside(t, ps + [n])
    decreases n
  {
    hide Control, Print, Tab, Newline, Backspace, After, IsGrid;
    var t0 := if ps == [] then Inside(t, []) else Inside(t, ps + [0]);
    InsideOk(t, rows, cols, []);
    InsideOk(t, rows, cols, ps + [0]);
    if n < 10 {
      AfterOne(t0, rows, cols, A.ZERO + n);
      DigitTaken(t, rows, cols, ps, 0, n, t0);
    } else {
      NumberTaken(t, rows, cols, ps, n / 10);
      var u := Inside(t, ps + [n / 10]);
      InsideOk(t, rows, cols, ps + [n / 10]);
      AfterMore(t0, rows, cols, Printed(n / 10), [A.ZERO + n % 10]);
      AfterOne(u, rows, cols, A.ZERO + n % 10);
      DigitTaken(t, rows, cols, ps, n / 10, n % 10, u);
    }
  }

  lemma DigitTaken(t: Term, rows: nat, cols: nat, ps: seq<nat>, n: nat, d: nat, u: Term)
    requires TermOk(u, rows, cols) && |ps| < MAX_PARAMS && d < 10
    requires u == Inside(t, ps + [n]) || (ps == [] && n == 0 && u == Inside(t, []))
    ensures Meaning(u, rows, cols, A.ZERO + d) == Inside(t, ps + [n * 10 + d])
  {
    hide Control, Print, Tab, Newline, Backspace, TermOk;
    var k := |ps|;
    assert u.params[k] == n;
    assert u.params[k := n * 10 + d] == (ps + [n * 10 + d]) + NoParams()[k + 1..];
  }

  /** A whole sequence with one parameter does what its last byte says. */
  lemma OneTaken(t: Term, rows: nat, cols: nat, n: nat, final: char)
    requires TermOk(t, rows, cols) && t.state == Normal && n <= INT_MAX && Ends(final)
    ensures TermOk(Inside(t, [n]), rows, cols)
    ensures After(t, rows, cols, With(n, final)) == Control(Inside(t, [n]), rows, cols, final).(state := Normal)
  {
    hide Control, Print, Tab, Newline, Backspace, After, IsGrid, A.Digits;
    Opened(t, rows, cols);
    NumberTaken(t, rows, cols, [], n);
    InsideOk(t, rows, cols, [n]);
    assert [] + [n] == [n];
    AfterMore(t, rows, cols, [ESC, BRACKET], Printed(n));
    AfterMore(t, rows, cols, [ESC, BRACKET] + Printed(n), [final as int]);
    AfterOne(Inside(t, [n]), rows, cols, final as int);
  }

  lemma TwoTaken(t: Term, rows: nat, cols: nat, n: nat, m: nat, final: char)
    requires TermOk(t, rows, cols) && t.state == Normal && n <= INT_MAX && m <= INT_MAX && Ends(final)
    ensures TermOk(Inside(t, [n, m]), rows, cols)
    ensures After(t, rows, cols, WithTwo(n, m, final)) == Control(Inside(t, [n, m]), rows, cols,
      final).(state := Normal)
  {
    hide Control, Print, Tab, Newline, Backspace, After, IsGrid, A.Digits;
    var a := [ESC, BRACKET] + Printed(n);
    Opened(t, rows, cols);
    NumberTaken(t, rows, cols, [], n);
    InsideOk(t, rows, cols, [n]);
    assert [] + [n] == [n] && [n] + [m] == [n, m] && [n] + [0] == [n, 0];
    AfterMore(t, rows, cols, [ESC, BRACKET], Printed(n));
    AfterMore(t, rows, cols, a, [SEMICOLON]);
    AfterOne(Inside(t, [n]), rows, cols, SEMICOLON);
    assert Inside(t, [n]).(count := 2) == Inside(t, [n, 0]);
    NumberTaken(t, rows, cols, [n], m);
    InsideOk(t, rows, cols, [n, m]);
    AfterMore(t, rows, cols, a + [SEMICOLON], Printed(m));
    AfterMore(t, rows, cols, a + [SEMICOLON] + Printed(m), [final as int]);
    AfterOne(Inside(t, [n, m]), rows, cols, final as int);
  }

  /* ---- the cursor ---- */

  /** Only the cursor has moved. */
  ghost predicate MovedTo(t: Term, u: Term, row: int, col: int)
  {
    && u.row == row && u.col == col && u.text == t.text && u.attr == t.attr && !u.wrap && u.visible == t.visible
    && u.state == Normal && u.savedRow == t.savedRow && u.savedCol == t.savedCol
  }

  /** `ESC [ r ; c H` goes to row `r` and column `c`, counting from one, or as far that way as the
      screen goes. */
  lemma GoesTo(t: Term, rows: nat, cols: nat, r: nat, c: nat)
    requires TermOk(t, rows, cols) && t.state == Normal && r <= INT_MAX && c <= INT_MAX
    ensures var u := After(t, rows, cols, WithTwo(r, c, 'H'));
      && TermOk(u, rows, cols)
      && MovedTo(t, u, if r == 0 then 0 else if r <= rows then r - 1 else rows - 1,
                 if c == 0 then 0 else if c <= cols then c - 1 else cols - 1)
  {
    hide After, IsGrid;
    TwoTaken(t, rows, cols, r, c, 'H');
  }

  /** `ESC [ n A` and the rest: `n` rows or columns, one if `n` is zero, as far as the screen goes.
      Down and right the sum has to be an int. */
  lemma Moves(t: Term, rows: nat, cols: nat, n: nat)
    requires TermOk(t, rows, cols) && t.state == Normal && n <= INT_MAX
    ensures var m := if n == 0 then 1 else n;
      && Goes(t, rows, cols, With(n, 'A'), if m <= t.row then t.row - m else 0, t.col)
      && Goes(t, rows, cols, With(n, 'D'), t.row, if m <= t.col then t.col - m else 0)
      && (t.row + n <= INT_MAX ==>
            Goes(t, rows, cols, With(n, 'B'), if t.row + m < rows then t.row + m else rows - 1, t.col))
      && (t.col + n <= INT_MAX ==>
            Goes(t, rows, cols, With(n, 'C'), t.row, if t.col + m < cols then t.col + m else cols - 1))
  {
    hide After, IsGrid;
    OneTaken(t, rows, cols, n, 'A');
    OneTaken(t, rows, cols, n, 'B');
    OneTaken(t, rows, cols, n, 'C');
    OneTaken(t, rows, cols, n, 'D');
  }

  ghost predicate Goes(t: Term, rows: nat, cols: nat, bs: Bytes, row: int, col: int)
  {
    var u := After(t, rows, cols, bs);
    TermOk(u, rows, cols) && MovedTo(t, u, row, col)
  }

  /** One after the other. */
  lemma GoesOn(t: Term, rows: nat, cols: nat, a: Bytes, b: Bytes, row: int, col: int)
    requires Goes(After(t, rows, cols, a), rows, cols, b, row, col)
    requires Goes(t, rows, cols, a, After(t, rows, cols, a).row, After(t, rows, cols, a).col)
    ensures Goes(t, rows, cols, a + b, row, col)
  {
    hide After, TermOk;
    AfterMore(t, rows, cols, a, b);
  }

  /** Down and up again, or right and left again, is back, where the edge was not in the way. */
  lemma ThereAndBack(t: Term, rows: nat, cols: nat, n: nat)
    requires TermOk(t, rows, cols) && t.state == Normal && 0 < n <= INT_MAX
    ensures t.row + n < rows ==> Goes(t, rows, cols, With(n, 'B') + With(n, 'A'), t.row, t.col)
    ensures t.col + n < cols ==> Goes(t, rows, cols, With(n, 'C') + With(n, 'D'), t.row, t.col)
    ensures n <= t.row ==> Goes(t, rows, cols, With(n, 'A') + With(n, 'B'), t.row, t.col)
    ensures n <= t.col ==> Goes(t, rows, cols, With(n, 'D') + With(n, 'C'), t.row, t.col)
  {
    hide After, TermOk, With;
    SmallGrid(t, rows, cols);
    Moves(t, rows, cols, n);
    var a, b := After(t, rows, cols, With(n, 'A')), After(t, rows, cols, With(n, 'B'));
    var c, d := After(t, rows, cols, With(n, 'C')), After(t, rows, cols, With(n, 'D'));
    Moves(a, rows, cols, n);
    Moves(d, rows, cols, n);
    GoesOnIf(n <= t.row, t, rows, cols, With(n, 'A'), With(n, 'B'));
    GoesOnIf(n <= t.col, t, rows, cols, With(n, 'D'), With(n, 'C'));
    if t.row + n < rows { Moves(b, rows, cols, n); }
    GoesOnIf(t.row + n < rows, t, rows, cols, With(n, 'B'), With(n, 'A'));
    if t.col + n < cols { Moves(c, rows, cols, n); }
    GoesOnIf(t.col + n < cols, t, rows, cols, With(n, 'C'), With(n, 'D'));
  }

  lemma GoesOnIf(when: bool, t: Term, rows: nat, cols: nat, a: Bytes, b: Bytes)
    requires when ==>
      var u := After(t, rows, cols, a);
      Goes(t, rows, cols, a, u.row, u.col) && Goes(u, rows, cols, b, t.row, t.col)
    ensures when ==> Goes(t, rows, cols, a + b, t.row, t.col)
  {
    hide Goes;
    if when { GoesOn(t, rows, cols, a, b, t.row, t.col); }
  }

  lemma SmallGrid(t: Term, rows: nat, cols: nat)
    requires TermOk(t, rows, cols)
    ensures t.row < rows <= MAX_ROWS && t.col < cols <= MAX_COLS
  {
  }

  /** A place saved is gone back to, wherever the cursor went. */
  lemma SavedIsKept(t: Term, rows: nat, cols: nat, r: nat, c: nat)
    requires TermOk(t, rows, cols) && t.state == Normal && r <= INT_MAX && c <= INT_MAX
    ensures var u := After(t, rows, cols, With(0, 's') + WithTwo(r, c, 'H') + With(0, 'u'));
      u.row == t.row && u.col == t.col && u.text == t.text
  {
    hide After, IsGrid, With, WithTwo;
    var a := After(t, rows, cols, With(0, 's'));
    OneTaken(t, rows, cols, 0, 's');
    AfterMore(t, rows, cols, With(0, 's'), WithTwo(r, c, 'H'));
    GoesTo(a, rows, cols, r, c);
    var b := After(a, rows, cols, WithTwo(r, c, 'H'));
    AfterMore(t, rows, cols, With(0, 's') + WithTwo(r, c, 'H'), With(0, 'u'));
    OneTaken(b, rows, cols, 0, 'u');
  }

  /** `ESC [ ? 25 l` hides the cursor and `ESC [ ? 25 h` shows it. */
  lemma HiddenAndShown(t: Term, rows: nat, cols: nat, final: char)
    requires TermOk(t, rows, cols) && t.state == Normal && final in {'l', 'h'}
    ensures After(t, rows, cols, [ESC, BRACKET, QUESTION] + Printed(25) + [final as int]).visible == (final == 'h')
  {
    hide After, IsGrid, Print, Tab, Newline, Backspace, Blanked, SgrAll;
    var a, b, c := Private(t, []), Private(t, [2]), Private(t, [25]);
    var front := [ESC, BRACKET, QUESTION];
    Opened(t, rows, cols);
    assert front == [ESC, BRACKET] + [QUESTION];
    AfterMore(t, rows, cols, [ESC, BRACKET], [QUESTION]);
    AfterOne(Inside(t, []), rows, cols, QUESTION);
    PrivateDigit(t, rows, cols, [], 0, 2);
    PrivateDigit(t, rows, cols, [2], 2, 5);
    assert Printed(25) == [0x32] + [0x35];
    AfterMore(t, rows, cols, front, Printed(25));
    AfterMore(a, rows, cols, [0x32], [0x35]);
    AfterMore(t, rows, cols, front + Printed(25), [final as int]);
    AfterOne(c, rows, cols, final as int);
  }

  function Private(t: Term, ps: seq<nat>): Term
    requires |ps| <= MAX_PARAMS
  {
    Inside(t, ps).(priv := true)
  }

  lemma PrivateDigit(t: Term, rows: nat, cols: nat, ps: seq<nat>, n: nat, d: nat)
    requires TermOk(t, rows, cols) && d < 10 && n <= 100 && (ps == [n] || (ps == [] && n == 0))
    ensures After(Private(t, ps), rows, cols, [A.ZERO + d]) == Private(t, [n * 10 + d])
    ensures TermOk(Private(t, [n * 10 + d]), rows, cols)
  {
    hide After, IsGrid, Control;
    var u := Private(t, ps);
    assert TermOk(u, rows, cols);
    AfterOne(u, rows, cols, A.ZERO + d);
    assert u.params[0] == n && u.params[0 := n * 10 + d] == [n * 10 + d] + NoParams()[1..];
  }

  /* ---- erasing ---- */

  /** Reading order: along the row, then down. */
  predicate AtOrAfter(r: int, c: int, row: int, col: int) { r > row || (r == row && c >= col) }

  lemma ReadingOrder(r: nat, c: nat, row: nat, col: nat, cols: nat)
    requires c < cols && col < cols
    ensures r * cols + c >= row * cols + col <==> AtOrAfter(r, c, row, col)
  {
    if r < row { assert (r + 1) * cols <= row * cols; }
    if r > row { assert (row + 1) * cols <= r * cols; }
  }

  /** `ESC [ p J` blanks the screen from the cursor on, up to it, or all of it. */
  lemma ErasesScreen(t: Term, rows: nat, cols: nat, p: nat, r: nat, c: nat)
    requires TermOk(t, rows, cols) && t.state == Normal && p <= INT_MAX && r < rows && c < cols
    ensures var u := After(t, rows, cols, With(p, 'J'));
      && TermOk(u, rows, cols) && u.row == t.row && u.col == t.col
      && var gone := if p == 0 then AtOrAfter(r, c, t.row, t.col) else if p == 1 then AtOrAfter(t.row, t.col, r, c)
        else true;
      u.text[r][c] == if gone then Cell(BLANK, t.attr) else t.text[r][c]
  {
    hide After, Blanked, With, ScreenPart;
    OneTaken(t, rows, cols, p, 'J');
    var e := ScreenPart(t.row, t.col, rows, cols, p);
    BlankedCell(t.text, rows, cols, e.0, e.1, t.attr, r, c);
    InScreenPart(t.row, t.col, rows, cols, p, r, c);
  }

  lemma InScreenPart(row: nat, col: nat, rows: nat, cols: nat, p: nat, r: nat, c: nat)
    requires row < rows && col < cols && r < rows && c < cols
    ensures var e := ScreenPart(row, col, rows, cols, p);
      (e.0 <= r * cols + c < e.1)
      == if p == 0 then AtOrAfter(r, c, row, col) else if p == 1 then AtOrAfter(row, col, r, c) else true
  {
    ReadingOrder(r, c, row, col, cols);
    ReadingOrder(row, col, r, c, cols);
    InGridCell(r, c, rows, cols);
    OnlyThree(r * cols + c, row * cols + col, rows * cols, p);
  }

  lemma OnlyThree(x: nat, pos: nat, all: nat, p: nat)
    requires x < all
    ensures var e := if p == 0 then (pos, all) else if p == 1 then (0, pos + 1) else (0, all);
      (e.0 <= x < e.1) == if p == 0 then x >= pos else if p == 1 then x <= pos else true
  {
  }

  lemma InGridCell(r: nat, c: nat, rows: nat, cols: nat)
    requires r < rows && c < cols
    ensures r * cols + c < rows * cols
  {
    assert (r + 1) * cols <= rows * cols;
  }

  lemma BlankedCell(text: Text, rows: nat, cols: nat, from: nat, to: nat, attr: Byte, r: nat, c: nat)
    requires IsGrid(text, rows, cols) && r < rows && c < cols
    ensures var t := Blanked(text, cols, from, to, attr);
      IsGrid(t, rows, cols) && t[r][c] == if from <= r * cols + c < to then Cell(BLANK, attr) else text[r][c]
  {
  }

  /** `ESC [ p K` the same of the cursor's row. */
  lemma ErasesLine(t: Term, rows: nat, cols: nat, p: nat, r: nat, c: nat)
    requires TermOk(t, rows, cols) && t.state == Normal && p <= INT_MAX && r < rows && c < cols
    ensures var u := After(t, rows, cols, With(p, 'K'));
      && TermOk(u, rows, cols) && u.row == t.row && u.col == t.col
      && var gone := r == t.row && if p == 0 then c >= t.col else if p == 1 then c <= t.col else true;
      u.text[r][c] == if gone then Cell(BLANK, t.attr) else t.text[r][c]
  {
    hide After, Blanked, With, LinePart;
    OneTaken(t, rows, cols, p, 'K');
    var e := LinePart(t.row, t.col, cols, p);
    BlankedCell(t.text, rows, cols, e.0, e.1, t.attr, r, c);
    InLinePart(t.row, t.col, cols, p, r, c);
  }

  lemma InLinePart(row: nat, col: nat, cols: nat, p: nat, r: nat, c: nat)
    requires col < cols && c < cols
    ensures var e := LinePart(row, col, cols, p);
      (e.0 <= r * cols + c < e.1) == (r == row && if p == 0 then c >= col else if p == 1 then c <= col else true)
  {
    ReadingOrder(r, c, row, col, cols);
    ReadingOrder(r, c, row, 0, cols);
    ReadingOrder(row, col, r, c, cols);
    ReadingOrder(r, c, row + 1, 0, cols);
    assert (row + 1) * cols == row * cols + cols;
  }

  /* ---- colours ---- */

  /** Colour `n` of the standard, which counts red as one, on a card that counts blue as one. */
  function OnCard(n: nat): nat { n % 2 * 4 + n / 2 % 2 * 2 + n / 4 % 2 }

  /** What a graphics parameter makes of ink and paper; eight more is the bright ink. */
  ghost predicate Coloured(p: nat, ink: nat, paper: nat, ink': nat, paper': nat)
  {
    && (p == 0 ==> ink' == 7 && paper' == 0)
    && (p in {1, 22} ==> ink' % 8 == ink % 8 && (ink' >= 8 <==> p == 1) && paper' == paper)
    && (p == 7 ==> ink' == paper && paper' == ink)
    && (30 <= p <= 37 ==> ink' % 8 == OnCard(p - 30) && (ink' >= 8 <==> ink >= 8) && paper' == paper)
    && (90 <= p <= 97 ==> ink' == 8 + OnCard(p - 90) && paper' == paper)
    && (40 <= p <= 47 ==> ink' == ink && paper' == OnCard(p - 40))
    && (100 <= p <= 107 ==> ink' == ink && paper' == OnCard(p - 100))
    && (p == 39 ==> ink' == 7 && paper' == paper) && (p == 49 ==> ink' == ink && paper' == 0)
  }

  /** `ESC [ p m`: the low nibble of the attribute is the ink and the high one the paper. */
  lemma Colours(t: Term, rows: nat, cols: nat, p: nat)
    requires TermOk(t, rows, cols) && t.state == Normal && p <= INT_MAX
    ensures var u := After(t, rows, cols, With(p, 'm'));
      && Coloured(p, t.attr % 16, t.attr / 16, u.attr % 16, u.attr / 16)
      && u.text == t.text && u.row == t.row && u.col == t.col
  {
    hide After, With, Sgr, Coloured, TermOk;
    OneTaken(t, rows, cols, p, 'm');
    assert Inside(t, [p]).params[..1] == [p];
    var ink, paper := t.attr % 16, t.attr / 16;
    assert [p][..0] == [] && SgrAll(ink, paper, []) == (ink, paper);
    assert SgrAll(ink, paper, [p]) == Sgr(ink, paper, p);
    SgrIs(ink, paper, p);
    Nibbles(Sgr(ink, paper, p).0, Sgr(ink, paper, p).1);
  }

  lemma SgrIs(ink: nat, paper: nat, p: nat)
    requires ink < 16 && paper < 16
    ensures Coloured(p, ink, paper, Sgr(ink, paper, p).0, Sgr(ink, paper, p).1)
  {
    hide AnsiToVga, OnCard;
    if 30 <= p <= 37 {
      CardColour(p - 30);
      BrightStays(ink, AnsiToVga(p - 30));
    } else if 40 <= p <= 47 {
      CardColour(p - 40);
    } else if 90 <= p <= 97 {
      CardColour(p - 90);
    } else if 100 <= p <= 107 {
      CardColour(p - 100);
    }
  }

  lemma CardColour(n: nat)
    requires n < 8
    ensures AnsiToVga(n) == OnCard(n) < 8
  {
    RedAndBlue(n);
  }

  lemma Nibbles(a: nat, b: nat)
    requires a < 16
    ensures (a + 16 * b) % 16 == a && (a + 16 * b) / 16 == b
  {
  }
}
