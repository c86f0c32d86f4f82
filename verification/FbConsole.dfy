/** The framebuffer console (kernel/drivers/fbcon.c), with a character cell for every
    eight by sixteen pixels.  Panning and repainting only what changed have to look, after
    every byte, as if the whole screen had been painted from the backing store. */
module FbConsole {

  const MAX_COLS: nat := 240
  const MAX_ROWS: nat := 75
  const FONT_W: nat := 8
  const FONT_H: nat := 16
  const FB_WINDOW: nat := 16 * 1024 * 1024
  const MAX_PARAMS: nat := 8
  const INT_MAX: nat := 0x7FFF_FFFF
  const UNKNOWN: Byte := 0xFF          // in `shown`: nothing is known of what is there

  type Byte = b: int | 0 <= b < 256

  datatype Cell = Cell(ch: Byte, at: Byte)

  /** What a cell of the card's buffer shows. */
  datatype Look = Plain(cell: Cell) | Underlined(cell: Cell) | Foreign

  /** The last two lines of what is there painted over in a cell's colour. */
  function WithUnderline(look: Look, ink: Byte): Look
  {
    if !look.Foreign? && look.cell.at == ink then Underlined(look.cell) else Foreign
  }

  datatype Option<T> = None | Some(value: T)

  datatype State = Normal | Escape | Csi

  const BLANK: Byte := 32

  function Max(a: int, b: int): int { if a < b then b else a }

  function Min(a: int, b: int): int { if a < b then a else b }

  /* ---- the height of the buffer ---- */

  /** The height dispi_set_res settles on, from what the card reads back; `line` is the
      bytes in a scanline. */
  function VirtHeight(line: nat, h: nat, granted: nat): nat
    requires line > 0
  {
    var v := if granted < h then h else granted;
    if v * line > FB_WINDOW then FB_WINDOW / line else v
  }

  /** Whatever the card grants, the screen fits in the buffer and the buffer in the aperture. */
  lemma VirtHeightFits(c: nat, r: nat, granted: nat)
    requires 1 <= c <= MAX_COLS && r <= MAX_ROWS
    ensures var line, h := c * FONT_W * 4, r * FONT_H;
      && h <= VirtHeight(line, h, granted) && VirtHeight(line, h, granted) * line <= FB_WINDOW
      && (granted >= h && granted * line <= FB_WINDOW ==> VirtHeight(line, h, granted) == granted)
      && (granted * line > FB_WINDOW ==> FB_WINDOW < (VirtHeight(line, h, granted) + 1) * line)
  {
    var line, h := c * FONT_W * 4, r * FONT_H;
    var q := FB_WINDOW / line;
    assert line <= 7680 && h <= 1200;
    MulMono(h, 1200, line, 7680);
    assert FB_WINDOW == q * line + FB_WINDOW % line;
    QuotientAtLeast(FB_WINDOW, line, q, FB_WINDOW % line, h);
  }

  lemma MulMono(a: nat, b: nat, c: nat, d: nat)
    requires a <= b && c <= d
    ensures a * c <= b * d
  {
    assert a * c <= b * c;
    assert b * c <= b * d;
  }

  lemma QuotientAtLeast(n: nat, a: nat, q: nat, r: nat, k: nat)
    requires n == q * a + r && r < a && k * a <= n
    ensures q >= k
  {
    if q + 1 <= k { MulMono(q + 1, k, a, a); }
    assert (q + 1) * a == q * a + a;
  }

  /* ---- the mark ---- */

  /** What repainting a cell only if it differs from what is thought to be shown leaves. */
  function Redraw(cell: Cell, shown: Cell, look: Look): Look { if cell != shown then Plain(cell) else look }

  /** After forgetting what is shown, a cell is sure to be repainted exactly when it does not
      hold the mark itself. */
  lemma RepaintedIff(cell: Cell)
    ensures (forall at: Byte, look: Look :: Redraw(cell, Cell(UNKNOWN, at), look) == Plain(cell))
      <==> cell.ch != UNKNOWN
  {
    if cell.ch == UNKNOWN { assert Redraw(cell, Cell(UNKNOWN, cell.at), Foreign) == Foreign; }
  }

  /* ---- tabs ---- */

  /** Where the cursor is after printing a space: the column, and whether a wrap is due. */
  function Advance(cols: nat, at: (nat, bool)): (nat, bool)
  {
    var col := if at.1 then 0 else at.0;
    if col + 1 >= cols then (col, true) else (col + 1, false)
  }

  function Advances(cols: nat, at: (nat, bool), n: nat): (nat, bool)
    decreases n
  {
    if n == 0 then at else Advances(cols, Advance(cols, at), n - 1)
  }

  /** How far the cursor is from the next tab stop, going round the line if need be. */
  function ToStop(cols: nat, at: (nat, bool)): (n: nat)
    requires at.0 < cols
    ensures n > 0
  {
    var stop := at.0 / 8 * 8 + 8;
    if at.1 then 8 else if stop < cols then stop - at.0 else cols - at.0 + 8
  }

  /** On a line that has a tab stop besides the first column, each space comes nearer to it. */
  lemma Nearer(cols: nat, at: (nat, bool))
    requires at.0 < cols && (cols == 1 || cols >= 9)
    ensures Advance(cols, at).0 < cols
    ensures Advance(cols, at).0 % 8 == 0 || ToStop(cols, Advance(cols, at)) < ToStop(cols, at)
  {
  }

  ghost predicate TabEnds(cols: nat, at: (nat, bool)) { exists n :: n > 0 && Advances(cols, at, n).0 % 8 == 0 }

  /** A tab ends, wherever it starts, exactly when the line is not two to eight columns wide. */
  lemma TabEndsIff(cols: nat, at: (nat, bool))
    requires at.0 < cols
    ensures TabEnds(cols, at) <==> cols == 1 || cols >= 9
  {
    if cols == 1 || cols >= 9 {
      TabReaches(cols, at);
    } else {
      forall n: nat | n > 0 ensures Advances(cols, at, n).0 % 8 != 0 { TabMisses(cols, Advance(cols, at), n - 1); }
    }
  }

  lemma {:induction false} TabReaches(cols: nat, at: (nat, bool))
    requires at.0 < cols && (cols == 1 || cols >= 9)
    ensures TabEnds(cols, at)
    decreases ToStop(cols, at)
  {
    var next := Advance(cols, at);
    Nearer(cols, at);
    if next.0 % 8 == 0 {
      assert Advances(cols, at, 1) == next;
    } else {
      TabReaches(cols, next);
      var n: nat :| n > 0 && Advances(cols, next, n).0 % 8 == 0;
      assert Advances(cols, at, n + 1).0 % 8 == 0;
    }
  }

  lemma {:induction false} TabMisses(cols: nat, at: (nat, bool), n: nat)
    requires 2 <= cols <= 8 && 1 <= at.0 < cols
    ensures Advances(cols, at, n).0 % 8 != 0
    decreases n
  {
    if n > 0 { TabMisses(cols, Advance(cols, at), n - 1); }
  }

  /* ---- colours ---- */

  /** ANSI colour order to the nibble of a VGA attribute. */
  function AnsiToVga(n: nat): nat
    requires n < 8
  {
    [0, 4, 2, 6, 1, 5, 3, 7][n]
  }

  /** One graphics parameter: the foreground and background nibbles it leaves. */
  function Sgr(fg: nat, bg: nat, p: nat): (r: (nat, nat))
    requires fg < 16 && bg < 16
    ensures r.0 < 16 && r.1 < 16
  {
    if p == 0 then (7, 0)
    else if p == 1 then (if fg < 8 then fg + 8 else fg, bg)
    else if p == 22 then (fg % 8, bg)
    else if p == 7 then (bg, fg)
    else if 30 <= p <= 37 then (fg / 8 * 8 + AnsiToVga(p - 30), bg)
    else if p == 39 then (7, bg)
    else if 40 <= p <= 47 then (fg, AnsiToVga(p - 40))
    else if p == 49 then (fg, 0)
    else if 90 <= p <= 97 then (8 + AnsiToVga(p - 90), bg)
    else if 100 <= p <= 107 then (fg, AnsiToVga(p - 100))
    else (fg, bg)
  }

  /** Giving a parameter twice is giving it once, but for the swap, which undoes itself. */
  lemma SgrTwice(fg: nat, bg: nat, p: nat)
    requires fg < 16 && bg < 16
    ensures var r := Sgr(fg, bg, p); Sgr(r.0, r.1, p) == if p == 7 then (fg, bg) else r
  {
    hide AnsiToVga;
    if 30 <= p <= 37 {
      RedAndBlue(p - 30);
      BrightStays(fg, AnsiToVga(p - 30));
    }
  }

  lemma BrightStays(fg: nat, colour: nat)
    requires fg < 16 && colour < 8
    ensures (fg / 8 * 8 + colour) / 8 == fg / 8
  {
  }

  /** The two orders of colours have red and blue the other way round. */
  lemma RedAndBlue(n: nat)
    requires n < 8
    ensures AnsiToVga(n) == n % 2 * 4 + n / 2 % 2 * 2 + n / 4 < 8 && AnsiToVga(AnsiToVga(n)) == n
  {
    assert n == 0 || n == 1 || n == 2 || n == 3 || n == 4 || n == 5 || n == 6 || n == 7;
  }

  /** A fixed screen has room for a row and for a tab stop. */
  predicate Roomy(fixedMode: bool, pxW: nat, pxH: nat)
  {
    fixedMode ==> (pxW / FONT_W == 1 || pxW / FONT_W >= 9) && pxH / FONT_H >= 1
  }

  /** The grid for a mode that is asked for: at least 40 by 25, at most 240 by 75, and on a
      screen that cannot change no more than fits. */
  function GridSize(fixedMode: bool, pxW: nat, pxH: nat, wantCols: int, wantRows: int): (g: (nat, nat))
    requires Roomy(fixedMode, pxW, pxH)
  {
    var fill := fixedMode && wantCols <= 0 && wantRows <= 0;
    var c, r := if fill then pxW / FONT_W else wantCols, if fill then pxH / FONT_H else wantRows;
    var c', r' := Min(Max(c, 40), MAX_COLS), Min(Max(r, 25), MAX_ROWS);
    if fixedMode then (Min(c', pxW / FONT_W), Min(r', pxH / FONT_H)) else (c', r')
  }

  /** Where the mode can be set, the size asked for does not depend on the size there was. */
  lemma GridSizeSame(fixedMode: bool, pxW: nat, pxH: nat, pxW': nat, pxH': nat, wantCols: int, wantRows: int)
    requires Roomy(fixedMode, pxW, pxH) && (fixedMode ==> pxW' == pxW && pxH' == pxH)
    ensures Roomy(fixedMode, pxW', pxH')
    ensures GridSize(fixedMode, pxW', pxH', wantCols, wantRows) == GridSize(fixedMode, pxW, pxH, wantCols, wantRows)
  {
  }

  lemma GridSizeOk(fixedMode: bool, pxW: nat, pxH: nat, wantCols: int, wantRows: int)
    requires Roomy(fixedMode, pxW, pxH)
    ensures var g := GridSize(fixedMode, pxW, pxH, wantCols, wantRows);
      && 1 <= g.0 <= MAX_COLS && 1 <= g.1 <= MAX_ROWS && (g.0 == 1 || g.0 >= 9)
      && (fixedMode ==> g.0 <= pxW / FONT_W && g.1 <= pxH / FONT_H)
      && (!fixedMode ==> g.0 >= 40 && g.1 >= 25)
      && (!fixedMode && 40 <= wantCols <= MAX_COLS ==> g.0 == wantCols)
      && (!fixedMode && 25 <= wantRows <= MAX_ROWS ==> g.1 == wantRows)
      && (fixedMode && wantCols <= 0 && wantRows <= 0 ==>
            && (pxW / FONT_W <= MAX_COLS ==> g.0 == pxW / FONT_W) && (pxH / FONT_H <= MAX_ROWS ==> g.1 == pxH / FONT_H))
  {
  }

  /* ---- the terminal as a value: what the bytes mean, with no screen behind it ---- */

  type Text = seq<seq<Cell>>

  datatype Term = Term(text: Text, row: nat, col: nat, attr: Byte, wrap: bool, visible: bool, state: State,
                       params: seq<nat>, count: nat, priv: bool, savedRow: nat, savedCol: nat)

  ghost predicate IsGrid(text: Text, rows: nat, cols: nat)
  {
    |text| == rows && forall r :: 0 <= r < rows ==> |text[r]| == cols
  }

  function BlankRow(cols: nat, attr: Byte): (row: seq<Cell>)
    ensures |row| == cols && forall c :: 0 <= c < cols ==> row[c] == Cell(BLANK, attr)
  {
    seq(cols, c => Cell(BLANK, attr))
  }

  function Put(text: Text, r: nat, c: nat, cell: Cell): Text
    requires r < |text| && c < |text[r]|
  {
    text[r := text[r][c := cell]]
  }

  /** The cells from number `from` up to `to`, counting along the rows, blanked. */
  function Blanked(text: Text, cols: nat, from: nat, to: nat, attr: Byte): (t: Text)
    ensures |t| == |text| && forall r :: 0 <= r < |t| ==> |t[r]| == |text[r]|
    ensures forall r, c :: 0 <= r < |t| && 0 <= c < |t[r]| ==>
      t[r][c] == if from <= r * cols + c < to then Cell(BLANK, attr) else text[r][c]
  {
    seq(|text|, r requires 0 <= r < |text| =>
      seq(|text[r]|, c requires 0 <= c < |text[r]| => if from <= r * cols + c < to then Cell(BLANK, attr)
        else text[r][c]))
  }

  ghost predicate TermOk(t: Term, rows: nat, cols: nat)
  {
    && 1 <= rows <= MAX_ROWS && (cols == 1 || 9 <= cols <= MAX_COLS) && IsGrid(t.text, rows, cols) && t.row < rows
      && t.col < cols
    && |t.params| == MAX_PARAMS && t.count <= MAX_PARAMS && Fit(t.params)
  }

  /** Every parameter is one an int can hold. */
  predicate Fit(ps: seq<nat>) { forall k :: 0 <= k < |ps| ==> ps[k] <= INT_MAX }

  function Newline(t: Term, rows: nat, cols: nat): Term
    requires |t.text| == rows >= 1
  {
    if t.row + 1 >= rows then t.(col := 0, row := rows - 1, text := t.text[1..] + [BlankRow(cols, t.attr)])
    else t.(col := 0, row := t.row + 1)
  }

  lemma NewlineOk(t: Term, rows: nat, cols: nat)
    requires TermOk(t, rows, cols)
    ensures TermOk(Newline(t, rows, cols), rows, cols)
  {
  }

  /** The wrap that is due, if any. */
  function Wrapped(t: Term, rows: nat, cols: nat): Term
    requires |t.text| == rows >= 1
  {
    if t.wrap then Newline(t.(wrap := false), rows, cols) else t
  }

  /** The cell at the cursor written, and the cursor moved on. */
  function Typed(t: Term, cols: nat, ch: Byte): Term
    requires t.row < |t.text| && t.col < |t.text[t.row]|
  {
    var w := t.(text := Put(t.text, t.row, t.col, Cell(ch, t.attr)));
    if t.col + 1 >= cols then w.(wrap := true) else w.(col := t.col + 1)
  }

  /** A printable byte: the wrap that was due, the cell, and the cursor moved on. */
  function Print(t: Term, rows: nat, cols: nat, ch: Byte): (t': Term)
    requires TermOk(t, rows, cols)
    ensures TermOk(t', rows, cols) && (t'.col, t'.wrap) == Advance(cols, (t.col, t.wrap)) && t'.state == t.state
  {
    NewlineOk(t.(wrap := false), rows, cols);
    Typed(Wrapped(t, rows, cols), cols, ch)
  }

  lemma PrintAdvances(t: Term, rows: nat, cols: nat, ch: Byte)
    requires TermOk(t, rows, cols)
    ensures var p := Print(t, rows, cols, ch); (p.col, p.wrap) == Advance(cols, (t.col, t.wrap)) && p.state == t.state
  {
  }

  /** Spaces up to the next tab stop. */
  function Tab(t: Term, rows: nat, cols: nat): (t': Term)
    requires TermOk(t, rows, cols)
    ensures TermOk(t', rows, cols) && t'.state == t.state
    decreases ToStop(cols, (t.col, t.wrap))
  {
    Nearer(cols, (t.col, t.wrap));
    var u := Print(t, rows, cols, BLANK);
    if u.col % 8 == 0 then u else Tab(u, rows, cols)
  }

  function Backspace(t: Term, rows: nat, cols: nat): (t': Term)
    requires TermOk(t, rows, cols)
    ensures TermOk(t', rows, cols)
  {
    var u := if t.col > 0 then t.(wrap := false, col := t.col - 1)
             else if t.row > 0 then t.(wrap := false, row := t.row - 1, col := cols - 1)
             else t.(wrap := false);
    u.(text := Put(u.text, u.row, u.col, Cell(BLANK, u.attr)))
  }

  function Param(t: Term, k: nat): nat
    requires |t.params| == MAX_PARAMS && k < MAX_PARAMS
  {
    if t.count > k then t.params[k] else 0
  }

  function SgrAll(fg: nat, bg: nat, ps: seq<nat>): (r: (nat, nat))
    requires fg < 16 && bg < 16
    ensures r.0 < 16 && r.1 < 16
  {
    if ps == [] then (fg, bg)
    else
      var s := SgrAll(fg, bg, ps[..|ps| - 1]);
      Sgr(s.0, s.1, ps[|ps| - 1])
  }

  /** Which cells an erase covers: from the cursor, up to it, or all; of the screen or of its row. */
  function ScreenPart(row: nat, col: nat, rows: nat, cols: nat, p: nat): (nat, nat)
  {
    var pos := row * cols + col;
    if p == 0 then (pos, rows * cols) else if p == 1 then (0, pos + 1) else (0, rows * cols)
  }

  function LinePart(row: nat, col: nat, cols: nat, p: nat): (nat, nat)
  {
    var line, pos := row * cols, row * cols + col;
    if p == 0 then (pos, line + cols) else if p == 1 then (line, pos + 1) else (line, line + cols)
  }

  /** The end of a control sequence. */
  function Control(t: Term, rows: nat, cols: nat, final: char): Term
    requires TermOk(t, rows, cols)
  {
    var p0, p1 := Param(t, 0), Param(t, 1);
    var u := t.(wrap := false);
    match final
    case 'J' => var e := ScreenPart(t.row, t.col, rows, cols, p0); u.(text := Blanked(t.text, cols, e.0, e.1, t.attr))
    case 'K' => var e := LinePart(t.row, t.col, cols, p0); u.(text := Blanked(t.text, cols, e.0, e.1, t.attr))
    case 'm' => var c := SgrAll(t.attr % 16, t.attr / 16, t.params[..t.count]); u.(attr := c.0 + 16 * c.1)
    case _ => Settle(u, rows, cols, final, p0, p1)
  }

  /** The sequences that save and restore the cursor, show and hide it, or move it. */
  function Settle(t: Term, rows: nat, cols: nat, final: char, p0: nat, p1: nat): Term
    requires t.row < rows && t.col < cols
  {
    match final
    case 's' => t.(savedRow := t.row, savedCol := t.col)
    case 'u' => t.(row := t.savedRow, col := t.savedCol)
    case 'h' => if t.priv && p0 == 25 then t.(visible := true) else t
    case 'l' => if t.priv && p0 == 25 then t.(visible := false) else t
    case _ => MoveCursor(t, rows, cols, final, p0, p1)
  }

  /** The sequences that only move the cursor, kept on the screen unless the sum overflows. */
  function MoveCursor(t: Term, rows: nat, cols: nat, final: char, p0: nat, p1: nat): Term
    requires t.row < rows && t.col < cols
  {
    var to := Motion(t.row, t.col, rows, cols, final, p0, p1);
    t.(row := to.0, col := to.1)
  }

  /** A move down or right adds ints with no check: a sum past the largest is none of the rows
      or columns, and the clamp, made for sums that are, does not catch it. */
  function Motion(row: nat, col: nat, rows: nat, cols: nat, final: char, p0: nat, p1: nat): (to: (nat, nat))
    requires row < rows && col < cols
  {
    var n := if p0 > 0 then p0 else 1;
    if final == 'H' || final == 'f' then
      (Min(if p0 > 0 then p0 - 1 else 0, rows - 1), Min(if p1 > 0 then p1 - 1 else 0, cols - 1))
    else if final == 'A' then (Max(row - n, 0), col)
    else if final == 'B' then (if row + n > INT_MAX then row + n else Min(row + n, rows - 1), col)
    else if final == 'C' then (row, if col + n > INT_MAX then col + n else Min(col + n, cols - 1))
    else if final == 'D' then (row, Max(col - n, 0))
    else (row, col)
  }

  function NoParams(): (r: seq<nat>)
    ensures |r| == MAX_PARAMS && Fit(r) && forall k :: 0 <= k < MAX_PARAMS ==> r[k] == 0
  {
    seq(MAX_PARAMS, k => 0)
  }

  /** A byte that is part of an escape sequence. */
  function Sequence(t: Term, rows: nat, cols: nat, b: Byte): Term
    requires TermOk(t, rows, cols)
  {
    match t.state
    case Normal => t.(state := Escape)
    case Escape =>
      if b == '[' as int then t.(state := Csi, count := 0, priv := false, params := NoParams()) else t.(state := Normal)
    case Csi =>
      if b == '?' as int then t.(priv := true)
      else if '0' as int <= b <= '9' as int then
        var n := if t.count == 0 then 1 else t.count;
        t.(count := n, params := t.params[n - 1 := t.params[n - 1] * 10 + (b - '0' as int)])
      else if b == ';' as int then (if t.count < MAX_PARAMS then t.(count := t.count + 1) else t)
      else Control(t, rows, cols, b as char).(state := Normal)
  }

  predicate InSequence(t: Term, b: Byte) { t.state != Normal || b == 0x1B }

  /** What a byte means. */
  function Meaning(t: Term, rows: nat, cols: nat, b: Byte): Term
    requires TermOk(t, rows, cols)
  {
    if InSequence(t, b) then Sequence(t, rows, cols, b)
    else if b == '\n' as int then Newline(t.(wrap := false), rows, cols)
    else if b == '\r' as int then t.(wrap := false, col := 0)
    else if b == '\t' as int then Tab(t, rows, cols)
    else if b == 8 then Backspace(t, rows, cols)
    else if b < 32 then t
    else Print(t, rows, cols, b)
  }

  /** The end of a sequence that leaves the screen: it puts the cursor back where it was saved
      and that is off the screen, or it moves it by more than an int can add. */
  predicate Overshoots(t: Term, rows: nat, cols: nat, final: char)
    requires |t.params| == MAX_PARAMS
  {
    || (final == 'u' && (t.savedRow >= rows || t.savedCol >= cols))
    || (final == 'B' && t.row + Param(t, 0) > INT_MAX)
    || (final == 'C' && t.col + Param(t, 0) > INT_MAX)
  }

  /** A digit that makes its parameter more than an int can hold. */
  predicate Overflows(t: Term, b: Byte)
    requires |t.params| == MAX_PARAMS && t.count <= MAX_PARAMS
  {
    '0' as int <= b <= '9' as int && t.params[if t.count == 0 then 0 else t.count - 1] * 10 + (b - '0' as int) > INT_MAX
  }

  /** The bytes that break the terminal. */
  predicate StraysTo(t: Term, rows: nat, cols: nat, b: Byte)
    requires |t.params| == MAX_PARAMS && t.count <= MAX_PARAMS
  {
    t.state == Csi && (Overflows(t, b) || Overshoots(t, rows, cols, b as char))
  }

  ghost function RowOf(a: array2<Cell>, r: nat, cols: nat): (row: seq<Cell>)
    requires r < a.Length0 && cols <= a.Length1
    reads a
    ensures |row| == cols && forall c :: 0 <= c < cols ==> row[c] == a[r, c]
  {
    seq(cols, c requires 0 <= c < cols reads a => a[r, c])
  }

  ghost function GridOf(a: array2<Cell>, rows: nat, cols: nat): (t: Text)
    requires rows <= a.Length0 && cols <= a.Length1
    reads a
    ensures IsGrid(t, rows, cols) && forall r, c :: 0 <= r < rows && 0 <= c < cols ==> t[r][c] == a[r, c]
  {
    seq(rows, r requires 0 <= r < rows reads a => RowOf(a, r, cols))
  }

  lemma SameText(s: Text, t: Text, rows: nat, cols: nat)
    requires IsGrid(s, rows, cols) && IsGrid(t, rows, cols)
    requires forall r, c :: 0 <= r < rows && 0 <= c < cols ==> s[r][c] == t[r][c]
    ensures s == t
  {
    forall r | 0 <= r < rows ensures s[r] == t[r] { }
  }

  /** Every byte leaves a proper terminal, except exactly the one that strays. */
  lemma MeaningOk(t: Term, rows: nat, cols: nat, b: Byte)
    requires TermOk(t, rows, cols)
    ensures TermOk(Meaning(t, rows, cols, b), rows, cols) <==> !StraysTo(t, rows, cols, b)
  {
    hide Blanked, Print, Tab, SgrAll, Newline, Put;
    if InSequence(t, b) {
      SequenceOk(t, rows, cols, b);
    } else {
      NewlineOk(t.(wrap := false), rows, cols);
      PrintOk(t, rows, cols, b);
    }
  }

  lemma PrintOk(t: Term, rows: nat, cols: nat, b: Byte)
    requires TermOk(t, rows, cols)
    ensures TermOk(Print(t, rows, cols, b), rows, cols) && TermOk(Tab(t, rows, cols), rows, cols)
    ensures TermOk(Backspace(t, rows, cols), rows, cols)
  {
  }

  lemma SequenceOk(t: Term, rows: nat, cols: nat, b: Byte)
    requires TermOk(t, rows, cols) && InSequence(t, b)
    ensures TermOk(Sequence(t, rows, cols, b), rows, cols) <==> !StraysTo(t, rows, cols, b)
  {
    hide Control, TermOk;
    if t.state == Csi { ControlOk(t, rows, cols, b as char); }
    SequenceParts(t, rows, cols, b);
  }

  lemma SequenceParts(t: Term, rows: nat, cols: nat, b: Byte)
    requires TermOk(t, rows, cols) && InSequence(t, b)
    requires t.state == Csi ==> (TermOk(Control(t, rows, cols, b as char), rows, cols)
      <==> !Overshoots(t, rows, cols, b as char))
    ensures TermOk(Sequence(t, rows, cols, b), rows, cols) <==> !StraysTo(t, rows, cols, b)
  {
    hide Control, IsGrid, Fit;
    if t.state == Csi && '0' as int <= b <= '9' as int {
      var n := if t.count == 0 then 1 else t.count;
      FitPut(t.params, n - 1, t.params[n - 1] * 10 + (b - '0' as int));
    }
  }

  lemma FitPut(ps: seq<nat>, k: nat, p: nat)
    requires k < |ps| && Fit(ps)
    ensures Fit(ps[k := p]) <==> p <= INT_MAX
  {
    assert ps[k := p][k] == p;
  }

  lemma ControlOk(t: Term, rows: nat, cols: nat, final: char)
    requires TermOk(t, rows, cols)
    ensures TermOk(Control(t, rows, cols, final), rows, cols) <==> !Overshoots(t, rows, cols, final)
  {
    hide SgrAll, Blanked, IsGrid, ScreenPart, LinePart, Settle;
    var p := Param(t, 0);
    if final == 'J' {
      BlankedGrid(t.text, rows, cols, ScreenPart(t.row, t.col, rows, cols, p).0,
        ScreenPart(t.row, t.col, rows, cols, p).1, t.attr);
    } else if final == 'K' {
      BlankedGrid(t.text, rows, cols, LinePart(t.row, t.col, cols, p).0, LinePart(t.row, t.col, cols, p).1, t.attr);
    } else if final != 'm' {
      SettleOk(t.(wrap := false), rows, cols, final, p, Param(t, 1));
    }
  }

  lemma SettleOk(t: Term, rows: nat, cols: nat, final: char, p0: nat, p1: nat)
    requires TermOk(t, rows, cols)
    requires p0 == Param(t, 0)
    ensures TermOk(Settle(t, rows, cols, final, p0, p1), rows, cols) <==> !Overshoots(t, rows, cols, final)
  {
    hide IsGrid, Fit, Param, Motion;
    MotionOk(t.row, t.col, rows, cols, final, p0, p1);
  }

  lemma MotionOk(row: nat, col: nat, rows: nat, cols: nat, final: char, p0: nat, p1: nat)
    requires row < rows <= MAX_ROWS && col < cols <= MAX_COLS
    ensures var to := Motion(row, col, rows, cols, final, p0, p1);
      to.0 < rows && to.1 < cols <==> !(final == 'B' && row + p0 > INT_MAX) && !(final == 'C' && col + p0 > INT_MAX)
  {
  }

  lemma BlankedGrid(text: Text, rows: nat, cols: nat, from: nat, to: nat, attr: Byte)
    requires IsGrid(text, rows, cols)
    ensures IsGrid(Blanked(text, cols, from, to, attr), rows, cols)
  {
  }

  /** A grid cut down after the cursor was saved: restoring it leaves the screen. */
  lemma RestoreStrays(text: Text)
    requires IsGrid(text, 25, 40)
    ensures var t := Term(text, 0, 0, 7, false, true, Csi, NoParams(), 0, false, 49, 79);
      TermOk(t, 25, 40) && !TermOk(Meaning(t, 25, 40, 'u' as int), 25, 40)
  {
    var t := Term(text, 0, 0, 7, false, true, Csi, NoParams(), 0, false, 49, 79);
    MeaningOk(t, 25, 40, 'u' as int);
  }

  /** One row down from the top and asked to go down by the largest int, and one digit too many. */
  lemma SumsStray(text: Text)
    requires IsGrid(text, 25, 40)
    ensures var t := Term(text, 1, 0, 7, false, true, Csi, NoParams()[0 := INT_MAX], 1, false, 0, 0);
      && TermOk(t, 25, 40) && !TermOk(Meaning(t, 25, 40, 'B' as int), 25, 40)
      && !TermOk(Meaning(t, 25, 40, '0' as int), 25, 40) && TermOk(Meaning(t.(row := 0), 25, 40, 'B' as int), 25, 40)
  {
    var t := Term(text, 1, 0, 7, false, true, Csi, NoParams()[0 := INT_MAX], 1, false, 0, 0);
    MeaningOk(t, 25, 40, 'B' as int);
    MeaningOk(t, 25, 40, '0' as int);
    MeaningOk(t.(row := 0), 25, 40, 'B' as int);
  }

  /* ---- the console ---- */

  class Console {
    const cells: array2<Cell>          // the backing store
    const shown: array2<Cell>          // what is on the glass, as far as is known
    var glass: array2<Look>            // the card's buffer
    const fixedMode: bool
    var pxW: nat
    var pxH: nat
    var cols: nat
    var rows: nat
    var panY: nat                      // the scanline at the top of the screen
    var virtH: nat
    var panning: bool
    var curRow: nat
    var curCol: nat
    var attr: Byte
    var wrapPending: bool
    var cursorVisible: bool
    var drawn: Option<(nat, nat)>      // where the cursor is drawn
    var suspended: bool
    var state: State
    var params: seq<nat>
    var count: nat
    var priv: bool
    var savedRow: nat
    var savedCol: nat

    constructor (fixedMode: bool, pxW: nat, pxH: nat)
      requires fixedMode ==> (pxW / FONT_W == 1 || pxW / FONT_W >= 9) && pxH / FONT_H >= 1
      ensures Device() && fresh(cells) && fresh(shown) && fresh(glass) && this.fixedMode == fixedMode
      ensures cursorVisible && state == Normal && !suspended
    {
      cells, shown := new Cell[MAX_ROWS, MAX_COLS], new Cell[MAX_ROWS, MAX_COLS];
      glass := new Look[pxH / FONT_H, MAX_COLS];
      this.fixedMode, this.pxW, this.pxH := fixedMode, pxW, pxH;
      panY, virtH, panning, suspended := 0, 0, false, false;
      cols, rows, curRow, curCol, attr, wrapPending, cursorVisible, drawn := 0, 0, 0, 0, 7, false, true, None;
      state, params, count, priv, savedRow, savedCol := Normal, NoParams(), 0, false, 0, 0;
    }

    /** The row of the buffer at the top of the screen. */
    function Top(): nat
      reads `panY
    {
      panY / FONT_H
    }

    /** Sizes of everything, and the window inside the buffer. */
    ghost predicate Geometry()
      reads `rows, `cols, `panY, `pxW, `pxH, `virtH, `panning, `glass
    {
      && cells.Length0 == shown.Length0 == MAX_ROWS && cells.Length1 == shown.Length1 == MAX_COLS && cells != shown
      && 1 <= rows <= MAX_ROWS && 1 <= cols <= MAX_COLS && (cols == 1 || cols >= 9)
      && glass.Length1 == MAX_COLS && Top() + rows <= glass.Length0
      && Pixels()
    }

    /** The escape parser's own fields. */
    ghost predicate Parser()
      reads `params, `count, `savedRow, `savedCol
    {
      |params| == MAX_PARAMS && count <= MAX_PARAMS && savedRow < MAX_ROWS && savedCol < MAX_COLS
    }

    ghost predicate Dims()
      reads `rows, `cols
    {
      cells.Length0 == MAX_ROWS && cells.Length1 == MAX_COLS && rows <= MAX_ROWS && cols <= MAX_COLS
    }

    /** A screen the firmware set up: room for a row and for a tab stop, all of it mapped. */
    ghost predicate FixedScreen()
      reads `pxW, `pxH, `glass
    {
      (pxW / FONT_W == 1 || pxW / FONT_W >= 9) && pxH / FONT_H >= 1 && glass.Length0 == pxH / FONT_H
    }

    /** What holds even before a mode is set. */
    ghost predicate Device()
      reads `panY, `panning, `pxW, `pxH, `glass, `params, `count, `savedRow, `savedCol
    {
      && cells.Length0 == shown.Length0 == MAX_ROWS && cells.Length1 == shown.Length1 == MAX_COLS && cells != shown
      && glass.Length1 == MAX_COLS && (fixedMode ==> panY == 0 && !panning && FixedScreen())
      && Parser() && Fit(params)
    }

    /** The same in pixels: the screen is inside the card's buffer, on a row boundary. */
    ghost predicate Pixels()
      reads `panY, `rows, `cols, `pxW, `pxH, `virtH, `panning, `glass
    {
      && panY % FONT_H == 0 && rows * FONT_H <= pxH && cols * FONT_W <= pxW
      && (fixedMode ==> panY == 0 && !panning && FixedScreen())
      && (!fixedMode ==> pxH == rows * FONT_H && panY + pxH <= virtH && glass.Length0 == virtH / FONT_H)
    }

    predicate InGrid()
      reads `curRow, `curCol, `rows, `cols
    {
      curRow < rows && curCol < cols
    }

    /** The mark for "unknown" is not a character on the screen. */
    ghost predicate NoMark()
      requires Dims()
      reads `rows, `cols, cells
    {
      forall r, c :: 0 <= r < rows && 0 <= c < cols ==> cells[r, c].ch != UNKNOWN
    }

    /** Where `shown` claims to know, it is right. */
    ghost predicate Faithful()
      requires Geometry()
      reads `rows, `cols, `panY, `pxW, `pxH, `virtH, `panning, `glass, shown, glass
    {
      forall r, c :: 0 <= r < rows && 0 <= c < cols && shown[r, c].ch != UNKNOWN ==>
        glass[Top() + r, c] == Plain(shown[r, c])
    }

    /** The window shows the backing store, with the cursor where it is said to be drawn. */
    ghost predicate Shows()
      requires Geometry()
      reads `rows, `cols, `panY, `pxW, `pxH, `virtH, `panning, `glass, `drawn, cells, shown, glass
    {
      forall r, c :: 0 <= r < rows && 0 <= c < cols ==>
        && shown[r, c] == cells[r, c]
        && glass[Top() + r, c] == if drawn == Some((r, c)) then Underlined(cells[r, c]) else Plain(cells[r, c])
    }

    /** Between bytes: unless the screen is lent out, it shows what it should. */
    ghost predicate Consistent()
      reads this, cells, shown, glass
    {
      && Geometry() && Parser() && Fit(params) && InGrid() && NoMark()
      && (drawn.Some? ==> drawn.value.0 < rows && drawn.value.1 < cols)
      && (!suspended ==> Shows())
    }

    /** While a byte is worked on: the same without the cursor. */
    ghost predicate Painted()
      reads `rows, `cols, `panY, `pxW, `pxH, `virtH, `panning, `glass, `drawn, `suspended, cells, shown, glass
    {
      Geometry() && NoMark() && drawn == None && (!suspended ==> Shows())
    }

    lemma PaintedFacts()
      requires Painted()
      ensures Geometry() && Dims() && drawn == None && IsGrid(Store(), rows, cols) && cells != shown
      ensures 1 <= rows <= MAX_ROWS && 1 <= cols <= MAX_COLS && (cols == 1 || cols >= 9)
    {
    }

    /** The backing store as a value. */
    ghost function Store(): Text
      requires Dims()
      reads `rows, `cols, cells
    {
      GridOf(cells, rows, cols)
    }

    /** The terminal this console is, whatever is on the glass. */
    ghost function Value(): Term
      requires Dims()
      reads this, cells
    {
      Term(Store(), curRow, curCol, attr, wrapPending, cursorVisible, state, params, count, priv, savedRow, savedCol)
    }

    /** The same without its text. */
    function Parsed(): Term
      reads this
    {
      Term([], curRow, curCol, attr, wrapPending, cursorVisible, state, params, count, priv, savedRow, savedCol)
    }

    /** The terminal, who has the screen, and the cursor on it. */
    ghost function Seen(): Screen
      requires Dims()
      reads this, cells
    {
      Screen(Value(), suspended, drawn)
    }

    method DrawCell(row: nat, col: nat)
      requires Geometry() && row < rows && col < cols
      modifies shown, glass
      ensures suspended ==> unchanged(shown) && unchanged(glass)
      ensures !suspended ==> shown[row, col] == cells[row, col] && glass[Top() + row, col] == Plain(cells[row, col])
      ensures forall r, c :: 0 <= r < MAX_ROWS && 0 <= c < MAX_COLS && (r != row || c != col) ==>
        shown[r, c] == old(shown[r, c])
      ensures forall r, c :: 0 <= r < glass.Length0 && 0 <= c < MAX_COLS && (r != Top() + row || c != col) ==>
        glass[r, c] == old(glass[r, c])
    {
      hide Pixels, Top;
      if suspended {
        return;
      }
      glass[Top() + row, col] := Plain(cells[row, col]);
      shown[row, col] := cells[row, col];
    }

    /** Bring the glass back into agreement with the backing store, touching only the cells
        that differ: the same as painting all of them. */
    method RedrawChanged()
      requires Geometry() && NoMark() && drawn == None && (!suspended ==> Faithful())
      modifies shown, glass
      ensures Painted()
      ensures suspended ==> unchanged(shown) && unchanged(glass)
    {
      hide Pixels, Top;
      for r := 0 to rows
        invariant !suspended ==> Faithful()
        invariant suspended ==> unchanged(shown) && unchanged(glass)
        invariant !suspended ==> forall i, c :: 0 <= i < r && 0 <= c < cols ==>
          shown[i, c] == cells[i, c] && glass[Top() + i, c] == Plain(cells[i, c])
      {
        RedrawRow(r);
      }
    }

    method RedrawRow(r: nat)
      requires Geometry() && NoMark() && r < rows && (!suspended ==> Faithful())
      modifies shown, glass
      ensures !suspended ==> Faithful()
      ensures suspended ==> unchanged(shown) && unchanged(glass)
      ensures !suspended ==> forall c :: 0 <= c < cols ==>
        shown[r, c] == cells[r, c] && glass[Top() + r, c] == Plain(cells[r, c])
      ensures forall i, c :: 0 <= i < MAX_ROWS && 0 <= c < MAX_COLS && i != r ==> shown[i, c] == old(shown[i, c])
      ensures forall i, c :: 0 <= i < glass.Length0 && 0 <= c < MAX_COLS && i != Top() + r ==>
        glass[i, c] == old(glass[i, c])
    {
      hide Pixels, Top;
      for c := 0 to cols
        invariant !suspended ==> Faithful()
        invariant suspended ==> unchanged(shown) && unchanged(glass)
        invariant !suspended ==> forall d :: 0 <= d < c ==>
          shown[r, d] == cells[r, d] && glass[Top() + r, d] == Plain(cells[r, d])
        invariant forall i, d :: 0 <= i < MAX_ROWS && 0 <= d < MAX_COLS && i != r ==> shown[i, d] == old(shown[i, d])
        invariant forall i, d :: 0 <= i < glass.Length0 && 0 <= d < MAX_COLS && i != Top() + r ==>
          glass[i, d] == old(glass[i, d])
      {
        if cells[r, c] != shown[r, c] {
          DrawCell(r, c);
        }
      }
    }

    method PutCell(row: nat, col: nat, c: Byte, a: Byte)
      requires Painted() && row < rows && col < cols && c != UNKNOWN
      modifies cells, shown, glass
      ensures Painted() && Store() == Put(old(Store()), row, col, Cell(c, a))
    {
      hide Pixels, Top, Store;
      SetCell(row, col, Cell(c, a));
      DrawCell(row, col);
    }

    method SetCell(row: nat, col: nat, cell: Cell)
      requires Dims() && row < rows && col < cols
      modifies cells
      ensures Store() == Put(old(Store()), row, col, cell) && cells[row, col] == cell
      ensures forall r, c :: 0 <= r < rows && 0 <= c < cols && (r != row || c != col) ==>
        cells[r, c] == old(cells[r, c])
    {
      ghost var text := Put(Store(), row, col, cell);
      cells[row, col] := cell;
      SameText(text, Store(), rows, cols);
    }

    method EraseCursor()
      requires Consistent()
      modifies `drawn, shown, glass
      ensures Painted()
    {
      hide Pixels, Top;
      if drawn.Some? {
        DrawCell(drawn.value.0, drawn.value.1);
      }
      drawn := None;
    }

    method DrawCursor()
      requires Painted() && Parser() && Fit(params) && InGrid()
      modifies `drawn, glass
      ensures Consistent() && drawn == if cursorVisible then Some((curRow, curCol)) else None
    {
      hide Pixels, Top;
      if !cursorVisible {
        return;
      }
      if !suspended {
        glass[Top() + curRow, curCol] := WithUnderline(glass[Top() + curRow, curCol], cells[curRow, curCol].at);
      }
      drawn := Some((curRow, curCol));
    }

    /** Move every row of a grid up one. */
    static method ShiftUp(a: array2<Cell>, rows: nat, cols: nat)
      requires 1 <= rows <= a.Length0 && cols <= a.Length1
      modifies a
      ensures forall r, c :: 0 <= r < rows - 1 && 0 <= c < cols ==> a[r, c] == old(a[r + 1, c])
    {
      for r := 1 to rows
        invariant forall i, c :: 0 <= i < r - 1 && 0 <= c < cols ==> a[i, c] == old(a[i + 1, c])
        invariant forall i, c :: r <= i < rows && 0 <= c < cols ==> a[i, c] == old(a[i, c])
      {
        for c := 0 to cols
          invariant forall i, d :: 0 <= i < r - 1 && 0 <= d < cols ==> a[i, d] == old(a[i + 1, d])
          invariant forall i, d :: r <= i < rows && 0 <= d < cols ==> a[i, d] == old(a[i, d])
          invariant forall i, d :: i == r - 1 && 0 <= d < c ==> a[i, d] == old(a[i + 1, d])
        {
          a[r - 1, c] := a[r, c];
        }
      }
    }

    /** Scroll the backing store. */
    method ScrollStore()
      requires Geometry() && NoMark()
      modifies cells
      ensures NoMark() && Store() == old(Store())[1..] + [BlankRow(cols, attr)]
      ensures forall r, c :: 0 <= r < rows - 1 && 0 <= c < cols ==> cells[r, c] == old(cells[r + 1, c])
    {
      hide Pixels, Top;
      ghost var text := Store()[1..] + [BlankRow(cols, attr)];
      ShiftUp(cells, rows, cols);
      for c := 0 to cols
        invariant forall r, d :: 0 <= r < rows - 1 && 0 <= d < cols ==> cells[r, d] == old(cells[r + 1, d])
        invariant forall r, d :: r == rows - 1 && 0 <= d < c ==> cells[r, d] == Cell(BLANK, attr)
      {
        cells[rows - 1, c] := Cell(BLANK, attr);
      }
      SameText(text, Store(), rows, cols);
    }

    /** Forget what is on the glass. */
    method ForgetShown()
      requires shown.Length0 == MAX_ROWS && shown.Length1 == MAX_COLS
      modifies shown
      ensures forall r, c :: 0 <= r < MAX_ROWS && 0 <= c < MAX_COLS ==> shown[r, c].ch == UNKNOWN
    {
      for r := 0 to MAX_ROWS
        invariant forall i, c :: 0 <= i < r && 0 <= c < MAX_COLS ==> shown[i, c].ch == UNKNOWN
      {
        for c := 0 to MAX_COLS
          invariant forall i, d :: 0 <= i < r && 0 <= d < MAX_COLS ==> shown[i, d].ch == UNKNOWN
          invariant forall d :: 0 <= d < c ==> shown[r, d].ch == UNKNOWN
        {
          shown[r, c] := shown[r, c].(ch := UNKNOWN);
        }
      }
    }

    /** Slide the window down a row, or back to the top when it has reached the end. */
    method Pan()
      requires Geometry() && Faithful() && panning
      modifies `panY, shown
      ensures Geometry() && Faithful()
    {
      if panY + FONT_H + pxH <= virtH {
        panY := panY + FONT_H;
        assert Top() == old(Top()) + 1 && Top() + rows <= glass.Length0 && Pixels();
        ForgetLastRow();
      } else {
        panY := 0;
        ForgetShown();
      }
    }

    /** What is shown has moved up a row, and of the row that came into view nothing is known. */
    method ForgetLastRow()
      requires Geometry() && Top() > 0
      requires forall r, c :: 0 <= r < rows && 0 <= c < cols && shown[r, c].ch != UNKNOWN ==>
        glass[Top() - 1 + r, c] == Plain(shown[r, c])
      modifies shown
      ensures Faithful()
    {
      hide Pixels, Top;
      ShiftUp(shown, rows, cols);
      for c := 0 to cols
        invariant forall r, d :: 0 <= r < rows - 1 && 0 <= d < cols ==> shown[r, d] == old(shown[r + 1, d])
        invariant forall r, d :: r == rows - 1 && 0 <= d < c ==> shown[r, d].ch == UNKNOWN
      {
        shown[rows - 1, c] := shown[rows - 1, c].(ch := UNKNOWN);
      }
      forall r, c | 0 <= r < rows && 0 <= c < cols && shown[r, c].ch != UNKNOWN
        ensures glass[Top() + r, c] == Plain(shown[r, c])
      {
        assert shown[r, c] == old(shown[r + 1, c]);
        assert glass[Top() - 1 + (r + 1), c] == Plain(old(shown[r + 1, c]));
      }
    }

    /** Scroll by one row. */
    method Scroll()
      requires Painted()
      modifies `panY, cells, shown, glass
      ensures Painted() && Store() == old(Store())[1..] + [BlankRow(cols, attr)]
    {
      hide Pixels, Top;
      ScrollStore();
      if panning && !suspended {
        Pan();
      }
      RedrawChanged();
    }

    method LineFeed()
      requires Painted() && InGrid()
      modifies `curRow, `curCol, `panY, cells, shown, glass
      ensures Painted() && InGrid() && Value() == Newline(old(Value()), rows, cols)
    {
      hide Painted, Geometry, Store;
      PaintedFacts();
      curCol := 0;
      curRow := curRow + 1;
      if curRow >= rows {
        curRow := rows - 1;
        Scroll();
      }
    }

    method WrapIfDue()
      requires Painted() && InGrid()
      modifies `curRow, `curCol, `panY, `wrapPending, cells, shown, glass
      ensures Painted() && InGrid() && !wrapPending && IsGrid(Store(), rows, cols)
        && Value() == Wrapped(old(Value()), rows, cols)
    {
      hide Painted, Geometry, Store, Newline;
      PaintedFacts();
      if wrapPending {
        wrapPending := false;
        LineFeed();
      }
      PaintedFacts();
    }

    method TypeCell(b: Byte)
      requires Painted() && InGrid() && b != UNKNOWN && IsGrid(Store(), rows, cols)
      modifies `curCol, `wrapPending, cells, shown, glass
      ensures Painted() && InGrid() && Value() == Typed(old(Value()), cols, b)
    {
      hide Painted, Geometry, Store, Put;
      PutCell(curRow, curCol, b, attr);
      if curCol + 1 >= cols {
        wrapPending := true;
      } else {
        curCol := curCol + 1;
      }
    }

    /** A printable byte. */
    method PrintByte(b: Byte)
      requires Painted() && Parser() && Fit(params) && InGrid() && b != UNKNOWN
      modifies `curRow, `curCol, `panY, `wrapPending, cells, shown, glass
      ensures Painted() && InGrid() && Value() == Print(old(Value()), rows, cols, b)
    {
      hide Painted, Geometry, Store, Typed, Wrapped;
      PaintedFacts();
      WrapIfDue();
      TypeCell(b);
    }

    method BackUp()
      requires Painted() && InGrid() && IsGrid(Store(), rows, cols) && cols >= 1 && TermOk(Value(), rows, cols)
      modifies `curRow, `curCol, `wrapPending, cells, shown, glass
      ensures Painted() && InGrid() && Value() == Backspace(old(Value()), rows, cols)
    {
      hide Painted, Geometry, Store, Put;
      wrapPending := false;
      if curCol > 0 {
        curCol := curCol - 1;
      } else if curRow > 0 {
        curRow, curCol := curRow - 1, cols - 1;
      }
      PutCell(curRow, curCol, BLANK, attr);
    }

    /** Blank the cells numbered from `from` up to `to`. */
    method EraseCells(from: nat, to: nat)
      requires Painted()
      modifies cells, shown, glass
      ensures Painted() && Store() == Blanked(old(Store()), cols, from, to, attr)
    {
      hide Painted, Geometry, Store, Blanked;
      PaintedFacts();
      ghost var text := Store();
      BlankedNone(text, rows, cols, from, attr);
      var i := from;
      while i < to && i < rows * cols
        invariant Painted() && from <= i && (i <= to || i == from)
        invariant Store() == Blanked(text, cols, from, i, attr)
      {
        EraseOne(text, from, i);
        i := i + 1;
      }
      BlankedRest(text, rows, cols, from, i, to, attr);
    }

    method EraseOne(ghost text: Text, from: nat, i: nat)
      requires Painted() && from <= i < rows * cols && IsGrid(text, rows, cols)
      requires Store() == Blanked(text, cols, from, i, attr)
      modifies cells, shown, glass
      ensures Painted() && Store() == Blanked(text, cols, from, i + 1, attr)
    {
      hide Painted, Geometry, Store, Blanked, Put, Dims, IsGrid;
      PaintedFacts();
      var r, c := CellAt(i);
      BlankedOne(text, rows, cols, from, r, c, attr);
      PutCell(r, c, BLANK, attr);
    }

    method CellAt(i: nat) returns (r: nat, c: nat)
      requires i < rows * cols && cols > 0
      ensures r < rows && c < cols && r * cols + c == i
    {
      CellNumber(i, rows, cols);
      r, c := i / cols, i % cols;
    }

    method EraseScreen(p: nat)
      requires Painted() && InGrid()
      modifies cells, shown, glass
      ensures Painted()
      ensures var e := ScreenPart(curRow, curCol, rows, cols, p); Store() == Blanked(old(Store()), cols, e.0, e.1, attr)
    {
      hide Painted, Store, Blanked;
      var pos := curRow * cols + curCol;
      if p == 0 {
        EraseCells(pos, rows * cols);
      } else if p == 1 {
        EraseCells(0, pos + 1);
      } else {
        EraseCells(0, rows * cols);
      }
    }

    method EraseLine(p: nat)
      requires Painted() && InGrid()
      modifies cells, shown, glass
      ensures Painted()
      ensures var e := LinePart(curRow, curCol, cols, p); Store() == Blanked(old(Store()), cols, e.0, e.1, attr)
    {
      hide Painted, Store, Blanked;
      var line, pos := curRow * cols, curRow * cols + curCol;
      if p == 0 {
        EraseCells(pos, line + cols);
      } else if p == 1 {
        EraseCells(line, pos + 1);
      } else {
        EraseCells(line, line + cols);
      }
    }

    method ApplySgr()
      requires Parser()
      modifies `attr
      ensures var c := SgrAll(old(attr) % 16, old(attr) / 16, params[..count]); attr == c.0 + 16 * c.1
    {
      var fg: nat, bg: nat := attr % 16, attr / 16;
      for i := 0 to count
        invariant fg < 16 && bg < 16 && (fg, bg) == SgrAll(old(attr) % 16, old(attr) / 16, params[..i])
      {
        assert params[..i + 1][..i] == params[..i];
        fg, bg := Recolour(fg, bg, params[i]);
      }
      attr := fg + 16 * bg;
    }

    static method Recolour(fg: nat, bg: nat, p: nat) returns (fg': nat, bg': nat)
      requires fg < 16 && bg < 16
      ensures (fg', bg') == Sgr(fg, bg, p)
    {
      var ansiToVga := [0, 4, 2, 6, 1, 5, 3, 7];
      fg', bg' := fg, bg;
      if p == 0 {
        fg', bg' := 7, 0;
      } else if p == 1 {
        if fg < 8 { fg' := fg + 8; }
      } else if p == 22 {
        if fg >= 8 { fg' := fg - 8; }
      } else if p == 7 {
        fg', bg' := bg, fg;
      } else if p >= 30 && p <= 37 {
        fg' := (if fg >= 8 then 8 else 0) + ansiToVga[p - 30];
      } else if p == 39 {
        fg' := 7;
      } else if p >= 40 && p <= 47 {
        bg' := ansiToVga[p - 40];
      } else if p == 49 {
        bg' := 0;
      } else if p >= 90 && p <= 97 {
        fg' := 8 + ansiToVga[p - 90];
      } else if p >= 100 && p <= 107 {
        bg' := ansiToVga[p - 100];
      }
    }

    /** The end of a control sequence. */
    method CsiExecute(final: char)
      requires Painted() && Parser() && Fit(params) && InGrid()
      modifies `curRow, `curCol, `attr, `wrapPending, `cursorVisible, `savedRow, `savedCol, cells, shown, glass
      ensures Painted() && Parser() && Value() == Control(old(Value()), rows, cols, final) && params == old(params)
    {
      hide Painted, Geometry, Store, Blanked, SgrAll, ScreenPart, LinePart, Settle;
      PaintedFacts();
      var p0, p1 := if count > 0 then params[0] else 0, if count > 1 then params[1] else 0;
      wrapPending := false;
      match final {
        case 'J' => EraseScreen(p0);
        case 'K' => EraseLine(p0);
        case 'm' => ApplySgr();
        case _ => SettleCursor(final, p0, p1);
      }
    }

    method SettleCursor(final: char, p0: nat, p1: nat)
      requires Dims() && Parser() && InGrid()
      modifies `curRow, `curCol, `cursorVisible, `savedRow, `savedCol
      ensures Parser() && Value() == Settle(old(Value()), rows, cols, final, p0, p1)
    {
      hide Store;
      match final {
        case 's' => savedRow, savedCol := curRow, curCol;
        case 'u' => curRow, curCol := savedRow, savedCol;
        case 'h' => if priv && p0 == 25 { cursorVisible := true; }
        case 'l' => if priv && p0 == 25 { cursorVisible := false; }
        case _ => StepCursor(final, p0, p1);
      }
    }

    method StepCursor(final: char, p0: nat, p1: nat)
      requires Dims() && InGrid()
      modifies `curRow, `curCol
      ensures Value() == MoveCursor(old(Value()), rows, cols, final, p0, p1)
    {
      hide Store, Motion;
      curRow, curCol := Stepped(curRow, curCol, rows, cols, final, p0, p1);
    }

    static method Stepped(row: nat, col: nat, rows: nat, cols: nat, final: char, p0: nat, p1: nat)
      returns (r: nat, c: nat)
      requires row < rows && col < cols
      ensures (r, c) == Motion(row, col, rows, cols, final, p0, p1)
    {
      var n := if p0 > 0 then p0 else 1;
      r, c := row, col;
      match final {
        case 'H' | 'f' =>
          r := if p0 > 0 then p0 - 1 else 0;
          c := if p1 > 0 then p1 - 1 else 0;
          if r >= rows { r := rows - 1; }
          if c >= cols { c := cols - 1; }
        case 'A' => r := if n > row then 0 else row - n;
        case 'B' =>
          r := row + n;                                // past an int it is no row at all
          if rows <= r <= INT_MAX { r := rows - 1; }
        case 'C' =>
          c := col + n;
          if cols <= c <= INT_MAX { c := cols - 1; }
        case 'D' => c := if n > col then 0 else col - n;
        case _ =>
      }
    }

    /** A byte of an escape sequence, if it is one. */
    method ConsumeEscape(b: Byte) returns (taken: bool)
      requires Painted() && Parser() && Fit(params) && InGrid()
      modifies `curRow, `curCol, `attr, `wrapPending, `cursorVisible, `savedRow, `savedCol, `state, `params, `count,
        `priv, cells, shown, glass
      ensures taken == InSequence(old(Value()), b) && Painted() && Parser()
      ensures Value() == if taken then Sequence(old(Value()), rows, cols, b) else old(Value())
    {
      hide Painted, Geometry, Store, Control;
      PaintedFacts();
      taken := true;
      match state {
        case Normal =>
          if b == 0x1B { state := Escape; } else { taken := false; }
        case Escape =>
          if b == '[' as int {
            state, count, priv, params := Csi, 0, false, NoParams();
          } else {
            state := Normal;
          }
        case Csi => ConsumeCsi(b);
      }
    }

    method ConsumeDigit(b: Byte)
      requires Painted() && Parser() && Fit(params) && InGrid() && state == Csi && '0' as int <= b <= '9' as int
      modifies `params, `count
      ensures Dims() && TermOk(old(Value()), rows, cols)
      ensures Painted() && Parser() && Value() == Sequence(old(Value()), rows, cols, b)
    {
      hide Painted, Geometry, Store, Control;
      PaintedFacts();
      if count == 0 { count := 1; }
      params := params[count - 1 := params[count - 1] * 10 + (b - '0' as int)];
    }

    /** A byte inside a control sequence. */
    method ConsumeCsi(b: Byte)
      requires Painted() && Parser() && Fit(params) && InGrid() && state == Csi
      modifies `curRow, `curCol, `attr, `wrapPending, `cursorVisible, `savedRow, `savedCol, `state, `params, `count,
        `priv, cells, shown, glass
      ensures InSequence(old(Value()), b) && Painted() && Parser() && Value() == Sequence(old(Value()), rows, cols, b)
    {
      hide Painted, Geometry, Store, Control;
      PaintedFacts();
      if b == '?' as int {
        priv := true;
      } else if '0' as int <= b <= '9' as int {
        ConsumeDigit(b);
      } else if b == ';' as int {
        if count < MAX_PARAMS { count := count + 1; }
      } else {
        CsiExecute(b as char);
        state := Normal;
      }
    }

    /** One byte.  The terminal takes its meaning, and whatever was panned, skipped or lent
        out, the screen shows the terminal. */
    method Putc(b: Byte)
      requires Consistent() && b != UNKNOWN
      modifies `curRow, `curCol, `attr, `wrapPending, `cursorVisible, `savedRow, `savedCol, `state, `params, `count,
        `priv, `drawn, `panY, cells, shown, glass
      ensures TermOk(old(Value()), rows, cols)
      ensures StraysTo(old(Value()), rows, cols, b) ==> !InGrid() || !Fit(params)
      ensures !StraysTo(old(Value()), rows, cols, b) ==>
        && Consistent() && Value() == Meaning(old(Value()), rows, cols, b)
        && drawn == if cursorVisible then Some((curRow, curCol)) else None
      decreases if b == '\t' as int then 1 else 0, 2
    {
      hide Painted, Consistent, Geometry, Store, Sequence, Print, Newline, Tab, Backspace;
      ConsistentFacts();
      ghost var t := Value();
      EraseCursor();
      MeaningOk(t, rows, cols, b);
      var taken := ConsumeEscape(b);
      if !taken {
        PutPlain(b);
      } else if InGrid() && Fit(params) {        // otherwise a number is past its range
        PaintedFacts();
        assert TermOk(Value(), rows, cols);
        DrawCursor();
      }
    }

    lemma ConsistentFacts()
      requires Consistent()
      ensures Dims() && TermOk(Value(), rows, cols) && InGrid() && Parser() && cells != shown
    {
    }

    lemma ConsistentDevice()
      requires Consistent()
      ensures Device()
    {
    }

    lemma PaintedIsConsistent()
      requires Painted() && Parser() && Fit(params) && InGrid()
      ensures Consistent()
    {
    }

    /** A byte that is not part of a sequence. */
    method PutPlain(b: Byte)
      requires Painted() && Parser() && Fit(params) && InGrid() && b != UNKNOWN && state == Normal && b != 0x1B
      modifies `curRow, `curCol, `attr, `wrapPending, `cursorVisible, `savedRow, `savedCol, `state, `params, `count,
        `priv, `drawn, `panY, cells, shown, glass
      ensures TermOk(old(Value()), rows, cols)
      ensures Consistent() && Value() == Meaning(old(Value()), rows, cols, b)
      ensures drawn == if cursorVisible then Some((curRow, curCol)) else None
      decreases if b == '\t' as int then 1 else 0, 1
    {
      hide Painted, Consistent, Geometry, Store, Print, Newline, Tab, Backspace;
      PaintedIsConsistent();
      ConsistentFacts();
      if b == '\t' as int {
        TypeTab();
      } else {
        TypeByte(b);
        DrawCursor();
      }
    }

    /** A byte that is not part of a sequence and not a tab. */
    method TypeByte(b: Byte)
      requires Painted() && Parser() && Fit(params) && InGrid() && b != UNKNOWN && b != '\t' as int && state == Normal
        && b != 0x1B
      modifies `curRow, `curCol, `panY, `wrapPending, cells, shown, glass
      ensures TermOk(old(Value()), rows, cols)
      ensures Painted() && InGrid() && Value() == Meaning(old(Value()), rows, cols, b)
    {
      hide Painted, Geometry, Store, Print, Newline, Put, Backspace;
      PaintedFacts();
      if b == '\n' as int {
        wrapPending := false;
        LineFeed();
      } else if b == '\r' as int {
        wrapPending := false;
        curCol := 0;
      } else if b == 8 {
        BackUp();
      } else if b >= 32 {
        PrintByte(b);
      }
    }

    /** Spaces up to the next tab stop, each drawn with its cursor. */
    method TypeTab()
      requires Consistent() && state == Normal
      modifies `curRow, `curCol, `attr, `wrapPending, `cursorVisible, `savedRow, `savedCol, `state, `params, `count,
        `priv, `drawn, `panY, cells, shown, glass
      ensures TermOk(old(Value()), rows, cols)
      ensures Consistent() && Value() == Tab(old(Value()), rows, cols)
      ensures drawn == if cursorVisible then Some((curRow, curCol)) else None
      decreases 1, 0
    {
      hide Consistent, Store, Print, TermOk, ToStop;
      ConsistentFacts();
      ghost var t := Value();
      TypeSpace();
      while curCol % 8 != 0
        invariant Consistent() && TermOk(Value(), rows, cols) && state == Normal && curCol < cols
        invariant drawn == if cursorVisible then Some((curRow, curCol)) else None
        invariant Tab(t, rows, cols) == if curCol % 8 == 0 then Value() else Tab(Value(), rows, cols)
        decreases if curCol % 8 == 0 then 0 else ToStop(cols, (curCol, wrapPending))
      {
        TypeSpace();
      }
    }

    /** One space of a tab: nearer to the stop, or at it. */
    method TypeSpace()
      requires Consistent() && state == Normal
      modifies `curRow, `curCol, `attr, `wrapPending, `cursorVisible, `savedRow, `savedCol, `state, `params, `count,
        `priv, `drawn, `panY, cells, shown, glass
      ensures TermOk(old(Value()), rows, cols) && TermOk(Value(), rows, cols) && curCol < cols
      ensures Consistent() && state == Normal && Value() == Print(old(Value()), rows, cols, BLANK)
      ensures drawn == if cursorVisible then Some((curRow, curCol)) else None
      ensures curCol % 8 == 0 || ToStop(cols, (curCol, wrapPending)) < ToStop(cols, old((curCol, wrapPending)))
      decreases 0, 3
    {
      hide Consistent, Store, Print, ToStop;
      ConsistentFacts();
      Nearer(cols, (curCol, wrapPending));
      PrintAdvances(Value(), rows, cols, BLANK);
      Putc(BLANK);
      ConsistentFacts();
    }

    /* ---- clearing, modes, and lending the screen out ---- */

    /** Blank the whole grid and the whole screen. */
    method ClearAll()
      requires Geometry() && Parser() && Fit(params)
      modifies `panY, `curRow, `curCol, `wrapPending, `drawn, cells, shown, glass
      ensures Consistent() && drawn == None && curRow == curCol == 0 && !wrapPending
      ensures Dims() && forall r, c :: 0 <= r < rows && 0 <= c < cols ==> cells[r, c] == Cell(BLANK, attr)
    {
      hide Geometry, Consistent, Top, AllBlank, Parser, Dims;
      HomeWindow();
      PaintBlank();
      HomeCursor();
      BlankIsConsistent();
    }

    /** The grid is blank in the store, in what is known to be shown, and on the glass. */
    ghost predicate AllBlank()
      reads `rows, `cols, `panY, `glass, `suspended, `attr, cells, shown, glass
    {
      && Dims() && shown.Length0 == MAX_ROWS && shown.Length1 == MAX_COLS && glass.Length1 == MAX_COLS
      && Top() + rows <= glass.Length0
      && (forall r, c :: 0 <= r < rows && 0 <= c < cols ==> cells[r, c] == shown[r, c] == Cell(BLANK, attr))
      && (!suspended ==> forall i, c :: Top() <= i < Top() + rows && 0 <= c < cols ==>
        glass[i, c] == Plain(Cell(BLANK, attr)))
    }

    method PaintBlank()
      requires Geometry()
      modifies cells, shown, glass
      ensures AllBlank()
    {
      hide Geometry, Top;
      GeometryDims();
      BlankStore();
      FillScreen();
    }

    method HomeWindow()
      requires Geometry()
      modifies `panY
      ensures Geometry()
    {
      if panning && !suspended && panY != 0 {
        panY := 0;
      }
    }

    method HomeCursor()
      modifies `curRow, `curCol, `wrapPending, `drawn
      ensures drawn == None && curRow == curCol == 0 && !wrapPending
    {
      curRow, curCol := 0, 0;
      wrapPending := false;
      drawn := None;
    }

    lemma BlankIsConsistent()
      requires Geometry() && Parser() && Fit(params) && drawn == None && curRow == curCol == 0 && AllBlank()
      ensures Consistent() && Dims() && forall r, c :: 0 <= r < rows && 0 <= c < cols ==>
        cells[r, c] == Cell(BLANK, attr)
    {
      hide Pixels, Top;
    }

    lemma GeometryDims()
      requires Geometry()
      ensures cells.Length0 == shown.Length0 == MAX_ROWS && cells.Length1 == shown.Length1 == MAX_COLS && cells != shown
      ensures 1 <= rows <= MAX_ROWS && 1 <= cols <= MAX_COLS && glass.Length1 == MAX_COLS
        && Top() + rows <= glass.Length0
    {
    }

    method BlankStore()
      requires Geometry()
      modifies cells, shown
      ensures Dims() && shown.Length0 == MAX_ROWS && shown.Length1 == MAX_COLS
      ensures forall r, c :: 0 <= r < rows && 0 <= c < cols ==> cells[r, c] == shown[r, c] == Cell(BLANK, attr)
    {
      hide Pixels, Top;
      for r := 0 to rows
        invariant forall i, c :: 0 <= i < r && 0 <= c < cols ==> cells[i, c] == shown[i, c] == Cell(BLANK, attr)
      {
        for c := 0 to cols
          invariant forall i, d :: 0 <= i < r && 0 <= d < cols ==> cells[i, d] == shown[i, d] == Cell(BLANK, attr)
          invariant forall i, d :: i == r && 0 <= d < c ==> cells[i, d] == shown[i, d] == Cell(BLANK, attr)
        {
          cells[r, c] := Cell(BLANK, attr);
          shown[r, c] := Cell(BLANK, attr);
        }
      }
    }

    /** One sweep of the screen in the background colour, which is what a blank looks like. */
    method FillScreen()
      requires Geometry()
      modifies glass
      ensures glass.Length1 == MAX_COLS && Top() + rows <= glass.Length0 && cols <= MAX_COLS
      ensures !suspended ==> forall i, c :: Top() <= i < Top() + rows && 0 <= c < cols ==>
        glass[i, c] == Plain(Cell(BLANK, attr))
    {
      hide Pixels, Top;
      if suspended {
        return;
      }
      for r := 0 to rows
        invariant forall i, c :: Top() <= i < Top() + r && 0 <= c < cols ==> glass[i, c] == Plain(Cell(BLANK, attr))
      {
        for c := 0 to cols
          invariant forall i, d :: Top() <= i < Top() + r && 0 <= d < cols ==> glass[i, d] == Plain(Cell(BLANK, attr))
          invariant forall i, d :: i == Top() + r && 0 <= d < c ==> glass[i, d] == Plain(Cell(BLANK, attr))
        {
          glass[Top() + r, c] := Plain(Cell(BLANK, attr));
        }
      }
    }

    /** Set the grid.  A card whose mode can be set gets one to match, with a buffer as tall
        as it grants; the picture in it is anything until it is cleared. */
    method SetMode(wantCols: int, wantRows: int, granted: nat)
      requires Device()
      modifies this, cells, shown, glass
      ensures Consistent() && drawn == None && curRow == curCol == 0 && attr == 7 && !wrapPending
      ensures glass == old(glass) || fresh(glass)
      ensures suspended == old(suspended) && cursorVisible == old(cursorVisible) && state == old(state)
        && params == old(params)
      ensures count == old(count) && priv == old(priv) && savedRow == old(savedRow) && savedCol == old(savedCol)
      ensures fixedMode ==> pxW == old(pxW) && pxH == old(pxH)
      ensures Sized(old(pxW), old(pxH), wantCols, wantRows)
      ensures Dims() && forall r, c :: 0 <= r < rows && 0 <= c < cols ==> cells[r, c] == Cell(BLANK, 7)
      ensures !fixedMode ==> panY + pxH <= virtH && virtH * (pxW * 4) <= FB_WINDOW
    {
      hide Geometry, Device, Consistent, Sized, Parser;
      SetGrid(wantCols, wantRows, granted);
      attr := 7;
      ClearAll();
      ConsistentPixels();
    }

    /** The grid is the one the request comes to. */
    ghost predicate Sized(w: nat, h: nat, wantCols: int, wantRows: int)
      reads `rows, `cols
    {
      && Roomy(fixedMode, w, h)
      && cols == GridSize(fixedMode, w, h, wantCols, wantRows).0
        && rows == GridSize(fixedMode, w, h, wantCols, wantRows).1
    }

    /** The size asked for, within the limits, and no more than fits a screen that cannot change. */
    method FitGrid(wantCols: int, wantRows: int) returns (c: nat, r: nat)
      requires Roomy(fixedMode, pxW, pxH)
      ensures (c, r) == GridSize(fixedMode, pxW, pxH, wantCols, wantRows)
    {
      var c', r' := wantCols, wantRows;
      if fixedMode && c' <= 0 && r' <= 0 { c', r' := pxW / FONT_W, pxH / FONT_H; }
      if c' < 40 { c' := 40; }
      if r' < 25 { r' := 25; }
      if c' > MAX_COLS { c' := MAX_COLS; }
      if r' > MAX_ROWS { r' := MAX_ROWS; }
      if fixedMode {
        if c' > pxW / FONT_W { c' := pxW / FONT_W; }
        if r' > pxH / FONT_H { r' := pxH / FONT_H; }
      }
      c, r := c', r';
    }

    method SetGrid(wantCols: int, wantRows: int, granted: nat)
      requires Device()
      modifies `rows, `cols, `pxW, `pxH, `virtH, `panY, `panning, `glass
      ensures Geometry() && Parser() && Fit(params) && Sized(old(pxW), old(pxH), wantCols, wantRows)
      ensures (glass == old(glass) || fresh(glass)) && (fixedMode ==> pxW == old(pxW) && pxH == old(pxH))
      ensures !fixedMode ==> virtH * (pxW * 4) <= FB_WINDOW
    {
      hide Geometry, Device, GridSize, Roomy, Parser;
      DeviceScreen();
      GridSizeOk(fixedMode, pxW, pxH, wantCols, wantRows);
      cols, rows := FitGrid(wantCols, wantRows);
      if fixedMode {
        FixedGeometry();
      } else {
        SetResolution(granted);
      }
    }

    lemma ResetIs(t: Term)
      requires Dims() && curRow == curCol == 0 && attr == 7 && !wrapPending
      requires forall r, c :: 0 <= r < rows && 0 <= c < cols ==> cells[r, c] == Cell(BLANK, 7)
      requires t.visible == cursorVisible && t.state == state && t.params == params && t.count == count
        && t.priv == priv
      requires t.savedRow == savedRow && t.savedCol == savedCol
      ensures Value() == Reset(t, (cols, rows))
    {
      var n, w := rows, cols;
      var blank := seq(n, r => BlankRow(w, 7));
      forall r | 0 <= r < n ensures Store()[r] == blank[r] { assert Store()[r] == BlankRow(w, 7); }
      assert Store() == blank;
    }

    lemma DeviceScreen()
      requires Device()
      ensures Parser() && Fit(params) && Roomy(fixedMode, pxW, pxH)
    {
    }

    lemma ConsistentRoomy(w: nat, h: nat)
      requires Consistent() && (fixedMode ==> pxW == w && pxH == h)
      ensures Roomy(fixedMode, w, h)
    {
      hide NoMark, Shows, Top;
    }

    lemma ConsistentPixels()
      requires Consistent()
      ensures !fixedMode ==> panY + pxH <= virtH
    {
    }

    lemma FixedGeometry()
      requires Device() && fixedMode && 1 <= rows <= MAX_ROWS && 1 <= cols <= MAX_COLS && (cols == 1 || cols >= 9)
      requires cols <= pxW / FONT_W && rows <= pxH / FONT_H
      ensures Geometry()
    {
    }

    method SetResolution(granted: nat)
      requires !fixedMode && Device() && 40 <= cols <= MAX_COLS && 25 <= rows <= MAX_ROWS
      modifies `pxW, `pxH, `virtH, `panY, `panning, `glass
      ensures Geometry() && fresh(glass) && virtH * (pxW * 4) <= FB_WINDOW
    {
      pxW, pxH := cols * FONT_W, rows * FONT_H;
      VirtHeightFits(cols, rows, granted);
      virtH := VirtHeight(pxW * 4, pxH, granted);
      panY := 0;
      panning := virtH >= pxH + FONT_H;
      glass := new Look[virtH / FONT_H, MAX_COLS];
      assert rows <= virtH / FONT_H;
    }

    /** A process takes the screen, and finds it at the top of the buffer. */
    method Suspend()
      requires Consistent()
      modifies `suspended, `panY
      ensures Consistent() && suspended && Value() == old(Value()) && (panning ==> panY == 0)
    {
      suspended := true;
      if panning && panY != 0 {
        panY := 0;
      }
    }

    /** What a process does with the screen while it has it. */
    method OthersDraw(r: nat, c: nat, look: Look)
      requires Consistent() && suspended && r < glass.Length0 && c < glass.Length1
      modifies glass
      ensures Consistent() && Value() == old(Value())
    {
      glass[r, c] := look;
    }

    /** The screen comes back and is repainted, whatever is on it. */
    method Resume()
      requires Consistent()
      modifies `suspended, `drawn, shown, glass
      ensures Consistent() && !suspended && Value() == old(Value())
      ensures drawn == if !old(suspended) then old(drawn) else if cursorVisible then Some((curRow, curCol)) else None
    {
      if !suspended {
        return;
      }
      hide Pixels, Top;
      suspended := false;
      ForgetShown();
      drawn := None;
      RedrawChanged();
      DrawCursor();
    }
  }

  /* ---- every run ---- */

  datatype Event =
    | PutByte(b: Byte) | Lend | TakeBack
    | Mode(cols: int, rows: int, granted: nat) | Draw(r: nat, c: nat, look: Look)

  /** A terminal, whether its screen is lent out, and where the cursor is drawn. */
  datatype Screen = Screen(term: Term, lent: bool, drawn: Option<(nat, nat)>)

  /** Where the cursor of a terminal belongs. */
  function CursorOf(t: Term): Option<(nat, nat)> { if t.visible then Some((t.row, t.col)) else None }

  /** What an event makes of a screen that was `w` by `h` pixels to begin with. */
  ghost predicate EventStep(s: Screen, s': Screen, e: Event, fixedMode: bool, w: nat, h: nat)
  {
    && Roomy(fixedMode, w, h)
    && match e
       case PutByte(b) => TermStep(s.term, s'.term, b) && s' == Screen(s'.term, s.lent, CursorOf(s'.term))
       case Lend => s' == s.(lent := true)
       case TakeBack => s' == if s.lent then Screen(s.term, false, CursorOf(s.term)) else s
       case Mode(c, r, _) => s' == Screen(Reset(s.term, GridSize(fixedMode, w, h, c, r)), s.lent, None)
       case Draw(_, _, _) => s' == s
  }

  ghost predicate Showing(screens: seq<Screen>, events: seq<Event>, fixedMode: bool, w: nat, h: nat)
  {
    |screens| <= |events| + 1 && forall k :: 0 <= k < |screens| - 1 ==>
      EventStep(screens[k], screens[k + 1], events[k], fixedMode, w, h)
  }

  lemma ShowingOne(s: Screen, events: seq<Event>, fixedMode: bool, w: nat, h: nat)
    ensures Showing([s], events, fixedMode, w, h)
  {
  }

  lemma ShowingMore(screens: seq<Screen>, events: seq<Event>, s: Screen, fixedMode: bool, w: nat, h: nat)
    requires Showing(screens, events, fixedMode, w, h) && 0 < |screens| <= |events|
    requires EventStep(screens[|screens| - 1], s, events[|screens| - 1], fixedMode, w, h)
    ensures Showing(screens + [s], events, fixedMode, w, h)
  {
    hide EventStep;
  }

  /** Whether the screen is lent out after the first `k` events: the last of those that lend or
      take back says. */
  function LentAfter(events: seq<Event>, lent: bool, k: nat): bool
    requires k <= |events|
  {
    if k == 0 then lent
    else match events[k - 1]
      case Lend => true
      case TakeBack => false
      case _ => LentAfter(events, lent, k - 1)
  }

  /** Whether the last event that painted was a mode change. */
  function BareAfter(events: seq<Event>, lent: bool, bare: bool, k: nat): bool
    requires k <= |events|
  {
    if k == 0 then bare
    else match events[k - 1]
      case PutByte(_) => false
      case Mode(_, _, _) => true
      case TakeBack => !LentAfter(events, lent, k - 1) && BareAfter(events, lent, bare, k - 1)
      case _ => BareAfter(events, lent, bare, k - 1)
  }

  /** In every state of a run the events alone say who has the screen, and the cursor is drawn
      where it belongs, exactly but for a mode change with no byte and no repaint since. */
  lemma {:induction false} CursorAfter(screens: seq<Screen>, events: seq<Event>, fixedMode: bool, w: nat, h: nat,
    bare: bool, k: nat)
    requires Showing(screens, events, fixedMode, w, h) && k < |screens|
    requires screens[0].drawn == if bare then None else CursorOf(screens[0].term)
    ensures screens[k].lent == LentAfter(events, screens[0].lent, k)
    ensures screens[k].drawn == if BareAfter(events, screens[0].lent, bare, k) then None else CursorOf(screens[k].term)
    decreases k
  {
    hide TermStep, Reset, GridSize, Roomy;
    if k > 0 {
      CursorAfter(screens, events, fixedMode, w, h, bare, k - 1);
      assert EventStep(screens[k - 1], screens[k - 1 + 1], events[k - 1], fixedMode, w, h);
    }
  }

  /** So a mode change leaves a visible cursor undrawn, and the next byte draws it. */
  lemma ModeHidesCursor(s: Screen, s': Screen, s'': Screen, c: int, r: int, granted: nat, b: Byte, fixedMode: bool,
    w: nat, h: nat)
    requires EventStep(s, s', Mode(c, r, granted), fixedMode, w, h) && EventStep(s', s'', PutByte(b), fixedMode, w, h)
    ensures s'.drawn == CursorOf(s'.term) <==> !s.term.visible
    ensures s''.drawn == CursorOf(s''.term)
  {
    hide TermStep, GridSize, Roomy;
  }

  /** Any bytes mixed with mode changes, suspensions and what others then draw: as long as no
      byte is the mark and none strays, the console is consistent after every event, and what
      it shows is the screen the events describe.  `done` is how far the run got. */
  method RunEvents(con: Console, events: seq<Event>) returns (done: nat, ghost screens: seq<Screen>)
    requires con.Consistent()
    requires forall k :: 0 <= k < |events| && events[k].PutByte? ==> events[k].b != UNKNOWN
    modifies con, con.cells, con.shown, con.glass
    ensures done <= |events| && |screens| == done + 1
    ensures con.Consistent() && con.Dims() && screens[done] == con.Seen()
    ensures old(con.Dims()) && screens[0] == old(con.Seen())
    ensures Showing(screens, events, con.fixedMode, old(con.pxW), old(con.pxH))
    ensures done < |events| ==>
      events[done].PutByte? && TermOk(con.Value(), con.rows, con.cols)
        && StraysTo(con.Value(), con.rows, con.cols, events[done].b)
  {
    hide Console.Consistent, Console.Value, EventStep, Showing, TermOk;
    con.ConsistentFacts();
    done, screens := 0, [con.Seen()];
    ghost var glass0, w, h := con.glass, con.pxW, con.pxH;
    ShowingOne(con.Seen(), events, con.fixedMode, w, h);
    while done < |events|
      invariant done <= |events| && |screens| == done + 1 && (con.glass == glass0 || fresh(con.glass))
      invariant con.Consistent() && con.Dims() && screens[done] == con.Seen() && screens[0] == old(con.Seen())
      invariant con.fixedMode ==> con.pxW == w && con.pxH == h
      invariant Showing(screens, events, con.fixedMode, w, h)
    {
      var ok := Happen(con, events[done], w, h);
      if !ok {
        return;
      }
      ShowingMore(screens, events, con.Seen(), con.fixedMode, w, h);
      screens := screens + [con.Seen()];
      done := done + 1;
    }
  }

  /** One event; false, and nothing done, for a byte that would stray. */
  method Happen(con: Console, e: Event, ghost w: nat, ghost h: nat) returns (ok: bool)
    requires con.Consistent() && con.Dims() && (e.PutByte? ==> e.b != UNKNOWN)
    requires con.fixedMode ==> con.pxW == w && con.pxH == h
    modifies con, con.cells, con.shown, con.glass
    ensures con.Consistent() && con.Dims() && (con.glass == old(con.glass) || fresh(con.glass))
    ensures con.fixedMode ==> con.pxW == w && con.pxH == h
    ensures ok ==> EventStep(old(con.Seen()), con.Seen(), e, con.fixedMode, w, h)
    ensures !ok ==>
      && con.Seen() == old(con.Seen()) && e.PutByte?
      && TermOk(con.Value(), con.rows, con.cols) && StraysTo(con.Value(), con.rows, con.cols, e.b)
  {
    hide Console.Geometry, Console.NoMark, Console.Shows, Console.Store, Meaning, GridSize, Roomy;
    con.ConsistentFacts();
    con.ConsistentRoomy(w, h);
    ok := true;
    match e {
      case PutByte(b) =>
        if Strays(con, b) {
          return false;
        }
        con.Putc(b);
      case Lend => con.Suspend();
      case TakeBack => con.Resume();
      case Mode(c, r, granted) => ChangeMode(con, c, r, granted, w, h);
      case Draw(r, c, look) =>
        if con.suspended && r < con.glass.Length0 && c < con.glass.Length1 {
          con.OthersDraw(r, c, look);
        }
    }
    con.ConsistentFacts();
  }

  method ChangeMode(con: Console, c: int, r: int, granted: nat, ghost w: nat, ghost h: nat)
    requires con.Consistent() && con.Dims() && (con.fixedMode ==> con.pxW == w && con.pxH == h)
      && Roomy(con.fixedMode, w, h)
    modifies con, con.cells, con.shown, con.glass
    ensures con.Consistent() && con.Dims() && (con.glass == old(con.glass) || fresh(con.glass))
    ensures con.fixedMode ==> con.pxW == w && con.pxH == h
    ensures con.Value() == Reset(old(con.Value()), GridSize(con.fixedMode, w, h, c, r))
    ensures con.suspended == old(con.suspended) && con.drawn == None
  {
    hide Console.Consistent, Console.Store, GridSize, Roomy, Reset;
    ghost var t := con.Value();
    con.ConsistentDevice();
    GridSizeSame(con.fixedMode, w, h, con.pxW, con.pxH, c, r);
    con.SetMode(c, r, granted);
    con.ResetIs(t);
    assert (con.cols, con.rows) == GridSize(con.fixedMode, w, h, c, r);
  }

  /** What setting a mode makes of a terminal: blank, white on black, the cursor home. */
  function Reset(t: Term, size: (nat, nat)): Term
  {
    t.(text := seq(size.1, r => BlankRow(size.0, 7)), row := 0, col := 0, attr := 7, wrap := false)
  }

  predicate Strays(con: Console, b: Byte)
    requires |con.params| == MAX_PARAMS && con.count <= MAX_PARAMS
    reads con
  {
    con.state == Csi && (Overflows(con.Parsed(), b) || Overshoots(con.Parsed(), con.rows, con.cols, b as char))
  }

  /** `t'` is `t` with byte `b` taken at its meaning. */
  ghost predicate TermStep(t: Term, t': Term, b: Byte)
  {
    exists rows: nat, cols: nat :: TermOk(t, rows, cols) && !StraysTo(t, rows, cols, b)
      && t' == Meaning(t, rows, cols, b)
  }

  /* ---- cells by number ---- */

  lemma CellNumber(i: nat, rows: nat, cols: nat)
    requires cols > 0 && i < rows * cols
    ensures i / cols < rows && i % cols < cols && i / cols * cols + i % cols == i
  {
    var q := i / cols;
    assert q * cols + i % cols == i;
    assert q >= rows ==> q * cols >= rows * cols;
  }

  lemma CellNumberUnique(r: nat, c: nat, s: nat, d: nat, cols: nat)
    requires c < cols && d < cols && r * cols + c == s * cols + d
    ensures r == s && c == d
  {
    assert (r - s) * cols == d - c;
    assert r - s >= 1 ==> (r - s) * cols >= cols;
    assert r - s <= -1 ==> (r - s) * cols <= 0 - cols;
  }

  lemma BlankedNone(text: Text, rows: nat, cols: nat, from: nat, attr: Byte)
    requires IsGrid(text, rows, cols)
    ensures Blanked(text, cols, from, from, attr) == text
  {
    SameText(Blanked(text, cols, from, from, attr), text, rows, cols);
  }

  lemma BlankedOne(text: Text, rows: nat, cols: nat, from: nat, r0: nat, c0: nat, attr: Byte)
    requires IsGrid(text, rows, cols) && r0 < rows && c0 < cols && from <= r0 * cols + c0
    ensures var i := r0 * cols + c0;
      var b := Blanked(text, cols, from, i, attr);
      && IsGrid(b, rows, cols)
      && Put(b, r0, c0, Cell(BLANK, attr)) == Blanked(text, cols, from, i + 1, attr)
  {
    var i := r0 * cols + c0;
    var b := Blanked(text, cols, from, i, attr);
    var p, q := Put(b, r0, c0, Cell(BLANK, attr)), Blanked(text, cols, from, i + 1, attr);
    forall r, c | 0 <= r < rows && 0 <= c < cols ensures p[r][c] == q[r][c] {
      if r * cols + c == i { CellNumberUnique(r, c, r0, c0, cols); }
    }
    SameText(p, q, rows, cols);
  }

  /** Past the last cell there is nothing to blank. */
  lemma BlankedRest(text: Text, rows: nat, cols: nat, from: nat, i: nat, to: nat, attr: Byte)
    requires IsGrid(text, rows, cols) && from <= i && (i >= to || i >= rows * cols) && (i <= to || i == from)
    ensures Blanked(text, cols, from, i, attr) == Blanked(text, cols, from, to, attr)
  {
    var p, q := Blanked(text, cols, from, i, attr), Blanked(text, cols, from, to, attr);
    forall r, c | 0 <= r < rows && 0 <= c < cols ensures p[r][c] == q[r][c] { CellNumberBound(r, c, rows, cols); }
    SameText(p, q, rows, cols);
  }

  lemma CellNumberBound(r: nat, c: nat, rows: nat, cols: nat)
    requires r < rows && c < cols
    ensures r * cols + c < rows * cols
  {
    assert (r + 1) * cols <= rows * cols;
    assert (r + 1) * cols == r * cols + cols;
  }
}
