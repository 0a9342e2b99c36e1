/** What each control character and control sequence does, told cell by cell and by the numbers in it. */
module ScreenLaws {

  import opened Common
  import opened Reflow
  import opened ScreenModel

  /** The cell in row `r` and column `c`. */
  function CellAt(v: View, r: nat, c: nat): Cell
    requires Shaped(v) && r < v.rows && c < v.cols
  {
    Line(v, r)[c]
  }

  // ---- Characters ----

  /** A character is drawn in the current colours, exchanged if they are inverted. */
  lemma {:induction false} InkedIs(v: View, ch: char)
    ensures Inked(v, ch).ch == ch
    ensures !v.inverse ==> Inked(v, ch).fg == v.fg && Inked(v, ch).bg == v.bg
    ensures v.inverse ==> Inked(v, ch).fg == v.bg && Inked(v, ch).bg == v.fg
  {
  }

  /** A character typed on a cell is written there, and nowhere else, and the cursor goes one on. */
  lemma {:induction false} TypedOnCell(v: View, ch: char)
    requires Valid(v) && v.col < v.cols
    ensures var w := Typed(v, ch);
            && w == v.(cells := w.cells, col := v.col + 1, afterCr := false)
            && w.cells == v.cells[Start(v.row, v.cols) + v.col := Inked(v, ch)]
  {
  }

  /** Backspace, the line ends and carriage return; no other control character but the tab does anything. */
  lemma {:induction false} ControlCharacters(v: View, code: nat)
    requires Valid(v)
    ensures var w := Executed(v, code);
            && (code == 8 ==> w == v.(afterCr := false, col := if v.col == 0 then 0 else v.col - 1))
            && (code == 13 ==> w == v.(afterCr := true, col := 0))
            && (10 <= code <= 12 ==> w == Fed(v.(afterCr := false, col := 0, soft := v.soft[v.row := false])))
            && (code !in {8, 9, 10, 11, 12, 13} ==> w == v.(afterCr := false))
  {
    hide Fed;
  }

  /** A tab goes to the next multiple of eight, and at the right edge to the next row, joined to this one. */
  lemma {:induction false} TabStops(v: View, stop: nat)
    requires Valid(v) && v.col < stop <= v.col + 8 && stop % 8 == 0
    ensures Executed(v, 9) ==
            if stop < v.cols then v.(afterCr := false, col := stop)
            else Fed(v.(afterCr := false, col := 0, soft := v.soft[v.row := true]))
  {
    hide Fed;
    assert stop == Tab(v.col);
  }

  /** A line feed goes one row down, and scrolls only on the last row. */
  lemma {:induction false} FeedGoesDown(v: View)
    requires Valid(v)
    ensures v.row + 1 < v.rows ==> Fed(v) == v.(row := v.row + 1)
    ensures v.row + 1 == v.rows ==> Fed(v) == Scrolled(v) && Fed(v).row == v.row
  {
  }

  /** Scrolling moves every row up by one and clears the last. */
  lemma {:induction false} ScrollMovesUp(v: View, r: nat)
    requires Valid(v) && r < v.rows
    ensures var w := Scrolled(v);
            && w.cols == v.cols && w.rows == v.rows
            && (r + 1 < v.rows ==> Line(w, r) == Line(v, r + 1) && w.soft[r] == v.soft[r + 1])
            && (r + 1 == v.rows ==> Line(w, r) == Spaces(v.cols) && !w.soft[r])
  {
    hide RowCells, Start, Spaces, Newest, Dropped, AllWide, Line;
    RowFits(0, v.rows, v.cols);
    RowFits(r, v.rows, v.cols);
    FirstRowStart(v.cols);
    LineIs(Scrolled(v), r);
    ShiftedSlice(v.cells, v.cols, Start(r, v.cols));
    if r + 1 < v.rows {
      RowFits(r + 1, v.rows, v.cols);
      LineIs(v, r + 1);
    }
  }

  lemma {:induction false} LineIs(v: View, r: nat)
    requires Shaped(v) && r < v.rows
    ensures Start(r, v.cols) + v.cols <= |v.cells| && Line(v, r) == v.cells[Start(r, v.cols)..Start(r, v.cols) + v.cols]
  {
    RowFits(r, v.rows, v.cols);
  }

  lemma {:induction false} ShiftedSlice(cells: seq<Cell>, n: nat, a: nat)
    requires n <= |cells| && a + n <= |cells|
    ensures var d := cells[n..] + Spaces(n);
            && (a + n + n <= |cells| ==> d[a..a + n] == cells[a + n..a + n + n])
            && (a + n == |cells| ==> d[a..a + n] == Spaces(n))
  {
    var d := cells[n..] + Spaces(n);
    assert a + n + n <= |cells| ==> d[a..a + n] == cells[a + n..a + n + n];
    assert a + n == |cells| ==> d[a..a + n] == Spaces(n);
  }

  /** The row that leaves the screen is the newest of the scrollback, and the view goes back to the screen. */
  lemma {:induction false} ScrollKeepsFirstRow(v: View)
    requires Valid(v)
    ensures var w := Scrolled(v);
            && w.row == v.row && w.col == v.col && w.viewOff == 0 && w.fg == v.fg && w.bg == v.bg
            && w.inverse == v.inverse && w.afterCr == v.afterCr
            && w.scrollback != [] && w.scrollback[|w.scrollback| - 1] == Row(Line(v, 0), v.soft[0])
  {
    hide RowCells, Spaces;
    RowFits(0, v.rows, v.cols);
  }

  lemma {:induction false} FirstRowStart(cols: nat)
    ensures Start(0, cols) == 0
  {
  }

  /** A word that reaches the right edge moves to the next row as a whole, unless it fills its row. */
  lemma {:induction false} WordMovesDown(v: View)
    requires Valid(v)
    ensures var line := Line(v, v.row);
            var ov := Overflow(line);
            && ov <= line[|line| - |ov|..] && |ov| < |line| && (forall i | 0 <= i < |ov| :: !Space(ov[i]))
            && (ov != [] ==> Space(line[|line| - |ov| - 1]))
            && (ov == [] ==> Space(line[|line| - 1]) || forall i | 0 <= i < |line| :: !Space(line[i]))
            && Wrapped(v).col == |ov|
  {
    hide Placed, Fed, Shortened, Line;
    PlacedColumn(Fed(Shortened(v, |Overflow(Line(v, v.row))|)), Overflow(Line(v, v.row)));
  }

  lemma {:induction false} PlacedColumn(v: View, text: seq<Cell>)
    requires Valid(v) && |text| <= v.cols
    ensures Placed(v, text).col == |text|
  {
  }

  lemma {:induction false} ClearedSlice(cells: seq<Cell>, from: nat, to: nat, a: nat, b: nat)
    requires from <= to <= |cells| && a <= b <= |cells|
    ensures b <= from || to <= a ==> Cleared(cells, from, to)[a..b] == cells[a..b]
    ensures a <= from && to == b ==> Cleared(cells, from, to)[a..b] == cells[a..from] + Spaces(to - from)
  {
    var d := Cleared(cells, from, to);
    assert |d| == |cells| && d[..from] == cells[..from] && d[from..to] == Spaces(to - from) && d[to..] == cells[to..];
    if b <= from {
      assert d[a..b] == d[..from][a..b] == cells[..from][a..b] == cells[a..b];
    }
    if to <= a {
      assert d[a..b] == d[to..][a - to..b - to] == cells[to..][a - to..b - to] == cells[a..b];
    }
    if a <= from && to == b {
      assert d[..from][a..] == cells[a..from];
      assert d[a..b] == d[a..from] + d[from..to] && d[a..from] == d[..from][a..];
    }
  }

  lemma {:induction false} OverwrittenSlice(cells: seq<Cell>, from: nat, text: seq<Cell>, a: nat, b: nat)
    requires from + |text| <= |cells| && a <= b <= |cells|
    ensures b <= from || from + |text| <= a ==> Overwritten(cells, from, text)[a..b] == cells[a..b]
    ensures a == from && from + |text| <= b ==> Overwritten(cells, from, text)[a..b] == text + cells[a + |text|..b]
  {
    var d, to := Overwritten(cells, from, text), from + |text|;
    assert |d| == |cells| && d[..from] == cells[..from] && d[from..to] == text && d[to..] == cells[to..];
    if b <= from {
      assert d[a..b] == d[..from][a..b] == cells[..from][a..b] == cells[a..b];
    }
    if to <= a {
      assert d[a..b] == d[to..][a - to..b - to] == cells[to..][a - to..b - to] == cells[a..b];
    }
    if a == from && to <= b {
      assert d[to..][..b - to] == cells[to..b];
      assert d[a..b] == d[from..to] + d[to..b] && d[to..b] == d[to..][..b - to];
    }
  }

  lemma {:induction false} ShortenedRow(v: View, k: nat)
    requires Valid(v) && k <= v.cols
    ensures Line(Shortened(v, k), v.row) == Line(v, v.row)[..v.cols - k] + Spaces(k)
  {
    hide Cleared, Start, Spaces, AllWide, Line;
    LineIs(v, v.row);
    LineIs(Shortened(v, k), v.row);
    RowFits(v.row, v.rows, v.cols);
    var a, edge := Start(v.row, v.cols), Start(v.row + 1, v.cols);
    ClearedSlice(v.cells, edge - k, edge, a, edge);
    SliceFront(v.cells, a, edge, v.cols - k);
  }

  lemma {:induction false} ShortenedRows(v: View, k: nat, r: nat)
    requires Valid(v) && k <= v.cols && r < v.rows && r != v.row
    ensures Line(Shortened(v, k), r) == Line(v, r)
  {
    hide Cleared, Start, Spaces, AllWide, Line;
    LineIs(v, r);
    LineIs(Shortened(v, k), r);
    RowFits(v.row, v.rows, v.cols);
    RowOrder(r, v.row, v.rows, v.cols);
    var edge, a := Start(v.row + 1, v.cols), Start(r, v.cols);
    ClearedSlice(v.cells, edge - k, edge, a, a + v.cols);
  }

  lemma {:induction false} SliceFront(cells: seq<Cell>, a: nat, b: nat, n: nat)
    requires a <= b <= |cells| && n <= b - a
    ensures cells[a..b][..n] == cells[a..a + n]
  {
  }

  lemma {:induction false} PlacedRows(v: View, text: seq<Cell>, r: nat)
    requires Valid(v) && |text| <= v.cols && r < v.rows
    ensures Line(Placed(v, text), r) == if r == v.row then text + Line(v, r)[|text|..] else Line(v, r)
  {
    hide Overwritten, Start, AllWide, Line;
    RowFits(v.row, v.rows, v.cols);
    RowOrder(r, v.row, v.rows, v.cols);
    LineIs(v, r);
    LineIs(Placed(v, text), r);
    var a := Start(r, v.cols);
    OverwrittenSlice(v.cells, Start(v.row, v.cols), text, a, a + v.cols);
    assert v.cells[a + |text|..a + v.cols] == v.cells[a..a + v.cols][|text|..];
  }

  /** The row above stays joined to the one the word moved to, with blanks where it was. */
  lemma {:induction false} WrapJoinsRows(v: View)
    requires Valid(v) && v.row + 1 < v.rows
    ensures var w, ov := Wrapped(v), Overflow(Line(v, v.row));
            && Shaped(w) && w.cols == v.cols && w.rows == v.rows
            && w.row == v.row + 1 && w.soft == v.soft[v.row := true]
            && Line(w, v.row) == Line(v, v.row)[..v.cols - |ov|] + Spaces(|ov|)
            && Line(w, v.row + 1) == ov + Line(v, v.row + 1)[|ov|..]
  {
    hide Overflow, Line, Overwritten, Cleared, Start;
    var ov := Overflow(Line(v, v.row));
    var s := Shortened(v, |ov|);
    var f := Fed(s);
    assert f == s.(row := s.row + 1);
    SameLines(s, f, v.row);
    SameLines(s, f, v.row + 1);
    ShortenedRow(v, |ov|);
    ShortenedRows(v, |ov|, v.row + 1);
    PlacedRows(f, ov, v.row);
    PlacedRows(f, ov, v.row + 1);
  }

  lemma {:induction false} SameLines(v: View, w: View, r: nat)
    requires Valid(v) && Valid(w) && w.cells == v.cells && w.cols == v.cols && w.rows == v.rows && r < v.rows
    ensures Line(w, r) == Line(v, r)
  {
  }

  // ---- The cursor ----

  /** The first number of a sequence, 1 if there is none or it is 0. */
  predicate CountIs(params: seq<nat>, n: nat) {
    n == if params == [] then 1 else if params[0] == 0 then 1 else params[0]
  }

  /** A goes up, B down and C right, by that many places and not off the screen. */
  lemma {:induction false} CursorSteps(v: View, params: seq<nat>, n: nat)
    requires Valid(v) && CountIs(params, n)
    ensures Dispatched(v, params, false, 'A') ==
            v.(afterCr := false, row := if n < v.row then v.row - n else 0, col := Min(v.col, v.cols - 1))
    ensures Dispatched(v, params, false, 'B') ==
            v.(afterCr := false, row := Min(v.row + n, v.rows - 1), col := Min(v.col, v.cols - 1))
    ensures Dispatched(v, params, false, 'C') == v.(afterCr := false, col := Min(v.col + n, v.cols - 1))
  {
    hide MovedLeft, ErasedBy, Sgr, Offset, Start, AllWide;
  }

  /** H and f go to the row and column given, counted from one. */
  lemma {:induction false} CursorJumps(v: View, params: seq<nat>, n: nat, m: nat)
    requires Valid(v) && CountIs(params, n) && CountIs(params[Min(1, |params|)..], m)
    ensures Dispatched(v, params, false, 'H') ==
            v.(afterCr := false, row := Min(n - 1, v.rows - 1), col := Min(m - 1, v.cols - 1))
    ensures Dispatched(v, params, false, 'f') == Dispatched(v, params, false, 'H')
  {
    hide MovedLeft, ErasedBy, Sgr, Offset, Start, AllWide;
  }

  /** D goes left by that many places along the logical line, as far as its start. */
  lemma {:induction false} CursorMovesLeft(v: View, params: seq<nat>, n: nat)
    requires Valid(v) && CountIs(params, n)
    ensures var w := Dispatched(v, params, false, 'D');
            && w == v.(afterCr := false, row := w.row, col := w.col) && w.row <= v.row
            && First(v.soft, w.row) == First(v.soft, v.row)
            && Offset(w) == if n <= Offset(v) then Offset(v) - n else 0
  {
    hide Offset, First, MovedLeft;
    MoveLeftIsExact(v, n);
    SameOffset(MovedLeft(v, n), Dispatched(v, params, false, 'D'));
  }

  lemma {:induction false} SameOffset(v: View, w: View)
    requires Valid(v) && w == v.(afterCr := w.afterCr)
    ensures Offset(w) == Offset(v)
    decreases v.row
  {
    if v.row > 0 && v.soft[v.row - 1] {
      assert UpLeft(w) == UpLeft(v).(afterCr := w.afterCr);
      SameOffset(UpLeft(v), UpLeft(w));
    }
  }

  /** Going left into a row above, the cursor lands one place behind its last ink, or at the edge. */
  lemma {:induction false} RowEndIs(cells: seq<Cell>, k: nat)
    ensures Blank(cells) ==> RowEnd(cells) == 0
    ensures k < |cells| && !Space(cells[k]) && Blank(cells[k + 1..]) ==> RowEnd(cells) == Min(k + 2, |cells|)
  {
    if k < |cells| && !Space(cells[k]) && Blank(cells[k + 1..]) {
      LastInk(cells, k);
    }
    if Blank(cells) {
      NoInkIn(cells);
    }
  }

  lemma {:induction false} LastInk(cells: seq<Cell>, k: nat)
    requires k < |cells| && !Space(cells[k]) && Blank(cells[k + 1..])
    ensures TextLength(cells) == k + 1
  {
    hide TextLength;
    var n := TextLength(cells);
  }

  lemma {:induction false} NoInkIn(cells: seq<Cell>)
    requires Blank(cells)
    ensures TextLength(cells) == 0
  {
  }

  /** A sequence that is to be ignored, or that is not known, changes no cell. */
  lemma {:induction false} OtherSequences(v: View, params: seq<nat>, action: char)
    requires Valid(v)
    ensures Dispatched(v, params, true, action) == v
    ensures action !in {'A', 'B', 'C', 'D', 'H', 'f', 'J', 'K', 'm'} ==>
              Dispatched(v, params, false, action) == v.(afterCr := false, col := Min(v.col, v.cols - 1))
  {
  }

  // ---- Erasing ----

  /** Whether a K or J sequence covers the cell in row `r` and column `c`: from the cursor on, up to it, or all
      of the row or screen. */
  predicate Covered(v: View, action: char, n: nat, r: nat, c: nat) {
    if action == 'K' then
      r == v.row && ((n == 0 && v.col <= c) || (n == 1 && c <= v.col) || n == 2)
    else
      || (n == 0 && (r > v.row || (r == v.row && v.col <= c)))
      || (n == 1 && (r < v.row || (r == v.row && c <= v.col)))
      || n == 2 || n == 3
  }

  /** With the cursor on a cell exactly those cells are emptied. Without a number it is 0. */
  lemma {:induction false} ErasesExactly(v: View, action: char, params: seq<nat>, n: nat, r: nat, c: nat)
    requires n == if params == [] then 0 else params[0]
    requires Valid(v) && v.col < v.cols && (action == 'J' || action == 'K') && r < v.rows && c < v.cols
    requires !(action == 'K' && n == 2 && v.afterCr)
    ensures var w := Dispatched(v, params, false, action);
            && w == v.(afterCr := false, cells := w.cells, soft := w.soft)
            && CellAt(w, r, c) ==
               (if Covered(v, action, n, r, c) then Cell(' ', DEFAULT_FG, DEFAULT_BG) else CellAt(v, r, c))
            && w.soft[r] == (v.soft[r] && !(action == 'J' && (n == 2 || n == 3)))
  {
    hide Cleared, Start, Line, LineErased, Dispatched, Covered, Erased;
    ErasesBy(v, action, params, n);
    RowFits(v.row, v.rows, v.cols);
    CoverIs(v, action, n, r, c);
    var (from, to) := Erased(action, n, v.row, v.col, v.cols, |v.cells|);
    LinesOf(v, r, c);
    LinesOf(Dispatched(v, params, false, action), r, c);
    ClearedCell(v.cells, from, to, Start(r, v.cols) + c);
  }

  lemma {:induction false} CoverIs(v: View, action: char, n: nat, r: nat, c: nat)
    requires Valid(v) && v.col < v.cols && (action == 'J' || action == 'K') && r < v.rows && c < v.cols
    ensures var (from, to) := Erased(action, n, v.row, v.col, v.cols, |v.cells|);
            from <= to <= |v.cells| && (from <= Start(r, v.cols) + c < to <==> Covered(v, action, n, r, c))
  {
    hide Start;
    RowFits(r, v.rows, v.cols);
    RowFits(v.row, v.rows, v.cols);
    RowOrder(r, v.row, v.rows, v.cols);
  }

  lemma {:induction false} ErasesBy(v: View, action: char, params: seq<nat>, n: nat)
    requires Valid(v) && (action == 'J' || action == 'K') && n == if params == [] then 0 else params[0]
    ensures Dispatched(v, params, false, action) == Clamped(ErasedBy(v, action, n).(afterCr := false))
  {
    hide Moved, MovedLeft, Sgr, ErasedBy;
  }

  lemma {:induction false} LinesOf(v: View, r: nat, c: nat)
    requires Shaped(v) && r < v.rows && c < v.cols
    ensures Start(r, v.cols) + c < |v.cells| && CellAt(v, r, c) == v.cells[Start(r, v.cols) + c]
  {
    RowFits(r, v.rows, v.cols);
  }

  lemma {:induction false} ClearedCell(cells: seq<Cell>, from: nat, to: nat, i: nat)
    requires from <= to <= |cells| && i < |cells|
    ensures Cleared(cells, from, to)[i] == if from <= i < to then EMPTY else cells[i]
  {
  }

  lemma {:induction false} RowOrder(r: nat, q: nat, rows: nat, cols: nat)
    requires r < rows && q < rows && cols > 0
    ensures r < q ==> Start(r, cols) + cols <= Start(q, cols)
    ensures q < r ==> Start(q, cols) + cols <= Start(r, cols)
  {
    if r < q {
      StartMonotone(r + 1, q, cols);
    } else if q < r {
      StartMonotone(q + 1, r, cols);
    }
  }

  /** K 2 behind a carriage return empties the whole logical line, takes its rows apart, and goes to its
      start. */
  lemma {:induction false} ErasesLogicalLine(v: View, r: nat, c: nat)
    requires Valid(v) && v.afterCr && r < v.rows && c < v.cols
    ensures var w, first, last := Dispatched(v, [2], false, 'K'), First(v.soft, v.row), Last(v.soft, v.row);
            && w == v.(afterCr := false, cells := w.cells, soft := w.soft, row := first, col := 0)
            && CellAt(w, r, c) == (if first <= r <= last then Cell(' ', DEFAULT_FG, DEFAULT_BG) else CellAt(v, r, c))
            && w.soft[r] == (v.soft[r] && !(first <= r <= last))
  {
    hide Cleared, Start, Line, First, Last, Dispatched;
    ErasesBy(v, 'K', [2], 2);
    var first, last := First(v.soft, v.row), Last(v.soft, v.row);
    StartMonotone(first, last + 1, v.cols);
    StartMonotone(last + 1, v.rows, v.cols);
    LinesOf(v, r, c);
    LinesOf(Dispatched(v, [2], false, 'K'), r, c);
    ClearedCell(v.cells, Start(first, v.cols), Start(last + 1, v.cols), Start(r, v.cols) + c);
    RowOrder(r, first, v.rows, v.cols);
    RowFits(last, v.rows, v.cols);
    RowFits(r, v.rows, v.cols);
    RowOrder(r, last, v.rows, v.cols);
    StartMonotone(if r <= last then r else last, if r <= last then last else r, v.cols);
  }

  // ---- Colours ----

  /** The eight colours in their order: black, red, green, yellow, blue, magenta, cyan and white. */
  lemma {:induction false} ColoursAre()
    ensures AnsiColour(0, false) == Rgb(0x00, 0x00, 0x00) && AnsiColour(1, false) == Rgb(0xCC, 0x24, 0x1D)
    ensures AnsiColour(2, false) == Rgb(0x98, 0x97, 0x1A) && AnsiColour(3, false) == Rgb(0xD7, 0x99, 0x21)
    ensures AnsiColour(4, false) == Rgb(0x45, 0x85, 0x88) && AnsiColour(5, false) == Rgb(0xB1, 0x62, 0x86)
    ensures AnsiColour(6, false) == Rgb(0x68, 0x9D, 0x6A) && AnsiColour(7, false) == Rgb(0xA8, 0x99, 0x84)
  {
  }

  /** Bright colours are lighter by 40 in each part, at most 255. */
  lemma {:induction false} BrightColours(i: nat)
    requires i < 8
    ensures var c, b := AnsiColour(i, false), AnsiColour(i, true);
            && b.r == Min(c.r + 40, 255) && b.g == Min(c.g + 40, 255) && b.b == Min(c.b + 40, 255)
  {
  }

  /** Codes 30 to 37 and 90 to 97 set the text, 40 to 47 and 100 to 107 the background, 39 and 49 undo that,
      7 and 27 turn inversion on and off, 0 undoes everything, and no other code does anything. */
  lemma {:induction false} StyleCodes(v: View, i: nat, code: nat)
    requires i < 8
    ensures Styled(v, 30 + i) == v.(fg := AnsiColour(i, false)) && Styled(v, 40 + i) == v.(bg := AnsiColour(i, false))
    ensures Styled(v, 90 + i) == v.(fg := AnsiColour(i, true)) && Styled(v, 100 + i) == v.(bg := AnsiColour(i, true))
    ensures Styled(v, 39) == v.(fg := Rgb(0xF0, 0xF0, 0xF0)) && Styled(v, 49) == v.(bg := Rgb(0x10, 0x18, 0x20))
    ensures Styled(v, 7) == v.(inverse := true) && Styled(v, 27) == v.(inverse := false)
    ensures Styled(v, 0) == v.(fg := Rgb(0xF0, 0xF0, 0xF0), bg := Rgb(0x10, 0x18, 0x20), inverse := false)
    ensures code !in {0, 7, 27, 39, 49} && code / 10 !in {3, 4, 9, 10} ==> Styled(v, code) == v
    ensures code in {38, 48, 98, 99, 108, 109} ==> Styled(v, code) == v
  {
    hide AnsiColour;
  }

  /** The codes of a sequence act from left to right; a sequence without codes is a reset. */
  lemma {:induction false} StylesInOrder(v: View, codes: seq<nat>, code: nat)
    ensures Sgr(v, []) == Styled(v, 0)
    ensures StyledAll(v, codes + [code]) == Styled(StyledAll(v, codes), code)
    ensures codes != [] ==> Sgr(v, codes) == StyledAll(v, codes)
  {
    assert (codes + [code])[..|codes|] == codes;
  }

  // ---- A new screen and a resized one ----

  lemma {:induction false} BlankIs(cols: nat, rows: nat, r: nat, c: nat)
    requires cols > 0 && rows > 0 && r < rows && c < cols
    ensures var v := BlankScreen(cols, rows);
            && v.cols == cols && v.rows == rows
            && CellAt(v, r, c) == Cell(' ', Rgb(0xF0, 0xF0, 0xF0), Rgb(0x10, 0x18, 0x20))
            && !v.soft[r] && v.scrollback == [] && v.lost == [] && v.row == 0 && v.col == 0 && v.viewOff == 0
            && !v.afterCr && v.fg == Rgb(0xF0, 0xF0, 0xF0) && v.bg == Rgb(0x10, 0x18, 0x20) && !v.inverse
  {
    RowFits(r, rows, cols);
  }

  /** For a resize a row is joined to the next if a wrap joined them, or if its last cell has ink; the last row
      with content only in the first case. Rows of the scrollback likewise. */
  lemma {:induction false} RowsJoin(v: View, n: nat, r: nat, i: nat)
    requires Valid(v) && r < n <= v.rows && i < |v.scrollback|
    ensures var row := ScreenRows(v, n)[r];
            && row.cells == Line(v, r)
            && (row.soft <==> v.soft[r] || (r + 1 < n && CellAt(v, r, v.cols - 1).ch != ' '))
    ensures var row, old' := OldRows(v.scrollback)[i], v.scrollback[i];
            && row.cells == old'.cells && |old'.cells| == v.cols
            && (row.soft <==> old'.soft || old'.cells[v.cols - 1].ch != ' ')
  {
  }
}
