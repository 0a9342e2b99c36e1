/** The terminal's screen as a value: a grid of cells kept as one vector, the rows joined by soft wraps,
    a bounded scrollback, and a cursor that may rest one column past the right edge. What the screen
    does is a function of this value; `Screen.dfy` does it in place. */
module ScreenModel {

  import opened Reflow

  const SCROLLBACK_MAX: nat := 256

  // ---- Positions in the cell vector ----

  /** Where row `r` begins: `r` rows of `cols` cells. */
  function Start(r: nat, cols: nat): nat { if r == 0 then 0 else Start(r - 1, cols) + cols }

  lemma {:induction false} StartIsProduct(r: nat, cols: nat)
    ensures Start(r, cols) == r * cols
  {
    if r > 0 {
      StartIsProduct(r - 1, cols);
      assert r * cols == (r - 1) * cols + cols;
    }
  }

  /** The index of a cell as the terminal multiplies it out. */
  function Index(r: nat, c: nat, cols: nat): (i: nat)
    ensures i == Start(r, cols) + c
  {
    StartIsProduct(r, cols);
    r * cols + c
  }

  lemma {:induction false} StartMonotone(r: nat, rows: nat, cols: nat)
    requires r <= rows
    ensures Start(r, cols) <= Start(rows, cols)
    decreases rows
  {
    if r < rows {
      StartMonotone(r, rows - 1, cols);
    }
  }

  lemma {:induction false} RowFits(r: nat, rows: nat, cols: nat)
    requires r < rows
    ensures Start(r, cols) + cols == Start(r + 1, cols) <= Start(rows, cols)
  {
    StartMonotone(r + 1, rows, cols);
  }

  // ---- Changes to a vector of cells ----

  function Cleared(c: seq<Cell>, from: nat, to: nat): (r: seq<Cell>)
    requires from <= to <= |c|
    ensures |r| == |c|
  {
    c[..from] + Spaces(to - from) + c[to..]
  }

  function Overwritten(c: seq<Cell>, from: nat, text: seq<Cell>): (r: seq<Cell>)
    requires from + |text| <= |c|
    ensures |r| == |c|
  {
    c[..from] + text + c[from + |text|..]
  }

  /** Writing over the blank end of a text adds the ink written. */
  lemma {:induction false} InkOfOverwritten(p: seq<Cell>, c: seq<Cell>, from: nat, text: seq<Cell>)
    requires from + |text| <= |c| && Blank(c[from..])
    ensures Ink(p + Overwritten(c, from, text)) == Ink(p + c) + Ink(text)
  {
    hide Ink;
    var x, z := p + c[..from], c[from + |text|..];
    assert p + c == x + c[from..] && p + Overwritten(c, from, text) == (x + text) + z;
    assert forall i | 0 <= i < |z| :: z[i] == c[from..][|text| + i];
    InkConcat(x, c[from..]);
    InkConcat(x + text, z);
    InkConcat(x, text);
    InkOfBlank(c[from..]);
    InkOfBlank(z);
  }

  /** Clearing a stretch that only blanks follow takes its ink off the end. */
  lemma {:induction false} InkOfCleared(p: seq<Cell>, c: seq<Cell>, from: nat, to: nat)
    requires from <= to <= |c| && Blank(c[to..])
    ensures Ink(p + c) == Ink(p + Cleared(c, from, to)) + Ink(c[from..to])
    ensures Blank(Cleared(c, from, to)[from..])
  {
    hide Ink;
    var x, gap, z := p + c[..from], Spaces(to - from), c[to..];
    assert p + c == x + (c[from..to] + z) && p + Cleared(c, from, to) == x + (gap + z);
    InkConcat(x, c[from..to] + z);
    InkConcat(c[from..to], z);
    InkConcat(x, gap + z);
    InkConcat(gap, z);
    InkOfBlank(gap);
    InkOfBlank(z);
    assert Cleared(c, from, to)[from..] == gap + z;
  }

  lemma {:induction false} InkOfTail(p: seq<Cell>, n: nat)
    ensures Ink(p + Spaces(n)) == Ink(p)
  {
    InkConcat(p, Spaces(n));
    InkOfBlank(Spaces(n));
  }

  lemma {:induction false} ShiftedEnd(c: seq<Cell>, n: nat)
    requires n <= |c|
    ensures (c[n..] + Spaces(n))[|c| - n..] == Spaces(n)
  {
  }

  lemma {:induction false} BlankSuffix(c: seq<Cell>, i: nat, j: nat)
    requires i <= j <= |c| && Blank(c[i..])
    ensures Blank(c[j..])
  {
    assert forall k | 0 <= k < |c[j..]| :: c[j..][k] == c[i..][j - i + k];
  }

  // ---- The screen ----

  datatype View = View(
    cols: nat, rows: nat,
    cells: seq<Cell>, soft: seq<bool>,       // soft: joined to the row below
    scrollback: seq<Row>,
    lost: seq<Cell>,                         // what has left the scrollback, for the record
    row: nat, col: nat,
    viewOff: nat, afterCr: bool,
    fg: Colour, bg: Colour, inverse: bool)

  predicate Shaped(v: View) {
    && v.cols > 0 && v.rows > 0 && |v.cells| == Start(v.rows, v.cols) && |v.soft| == v.rows
    && |v.scrollback| <= SCROLLBACK_MAX && AllWide(v.scrollback, v.cols) && v.viewOff <= |v.scrollback|
  }

  predicate Valid(v: View) { Shaped(v) && v.row < v.rows && v.col <= v.cols }

  function BlankScreen(cols: nat, rows: nat): (v: View)
    requires cols > 0 && rows > 0
    ensures Valid(v)
  {
    View(cols, rows, Spaces(Start(rows, cols)), seq(rows, i => false), [], [], 0, 0, 0, false,
         DEFAULT_FG, DEFAULT_BG, false)
  }

  function Line(v: View, r: nat): (line: seq<Cell>)
    requires Shaped(v) && r < v.rows
    ensures |line| == v.cols
  {
    RowFits(r, v.rows, v.cols);
    v.cells[Start(r, v.cols)..Start(r + 1, v.cols)]
  }

  /** Index of the cell the cursor is on, or one past its row. */
  function Cursor(v: View): (i: nat)
    requires Valid(v)
    ensures i <= |v.cells| && (v.col < v.cols ==> i < |v.cells|)
  {
    RowFits(v.row, v.rows, v.cols);
    Start(v.row, v.cols) + v.col
  }

  /** Everything ever shown and not overwritten, oldest first. */
  function All(v: View): seq<Cell> { v.lost + RowCells(v.scrollback) + v.cells }

  /** What can still be seen: the scrollback and the screen. */
  function Visible(v: View): seq<Cell> { RowCells(v.scrollback) + v.cells }

  // ---- Scrolling ----

  /** The newest rows, at most `limit` of them. */
  function Newest(rows: seq<Row>, limit: nat): seq<Row> {
    if |rows| <= limit then rows else rows[|rows| - limit..]
  }

  function Dropped(rows: seq<Row>, limit: nat): seq<Row> {
    if |rows| <= limit then [] else rows[..|rows| - limit]
  }

  /** The first row joins the scrollback, which keeps its newest 256 lines. */
  function Scrolled(v: View): (w: View)
    requires Valid(v)
    ensures Valid(w)
  {
    RowFits(0, v.rows, v.cols);
    var all := v.scrollback + [Row(v.cells[..v.cols], v.soft[0])];
    v.(cells := v.cells[v.cols..] + Spaces(v.cols), soft := v.soft[1..] + [false],
       scrollback := Newest(all, SCROLLBACK_MAX),
       lost := v.lost + RowCells(Dropped(all, SCROLLBACK_MAX)), viewOff := 0)
  }

  function Fed(v: View): (w: View)
    requires Valid(v)
    ensures Valid(w) && w.cols == v.cols && w.rows == v.rows && w.col == v.col
  {
    if v.row + 1 < v.rows then v.(row := v.row + 1) else Scrolled(v)
  }

  function Broken(v: View): (w: View)
    requires Valid(v)
    ensures Valid(w)
  {
    Fed(v.(soft := v.soft[v.row := false], col := 0))
  }

  // ---- Typing ----

  /** Length of the part of a row up to its last space, 0 if it has none. */
  function SpaceEnd(line: seq<Cell>): (n: nat)
    ensures n <= |line| && (n > 0 ==> Space(line[n - 1])) && forall k | n <= k < |line| :: !Space(line[k])
  {
    if line == [] then 0 else if Space(line[|line| - 1]) then |line| else SpaceEnd(line[..|line| - 1])
  }

  /** The word under way at the right edge: all that follows the last space. A row without a space is
      cut at the edge. */
  function Overflow(line: seq<Cell>): (ov: seq<Cell>)
    ensures line != [] ==> |ov| < |line|
  {
    var n := SpaceEnd(line);
    if 0 < n < |line| then line[n..] else []
  }

  /** With the row's last `k` cells cleared and the row joined to the next. */
  function Shortened(v: View, k: nat): (w: View)
    requires Valid(v) && k <= v.cols
    ensures Valid(w) && w.cols == v.cols && w.col == 0
  {
    RowFits(v.row, v.rows, v.cols);
    var edge := Start(v.row + 1, v.cols);
    v.(cells := Cleared(v.cells, edge - k, edge), soft := v.soft[v.row := true], col := 0)
  }

  /** With the text placed from the start of the row. */
  function Placed(v: View, text: seq<Cell>): (w: View)
    requires Valid(v) && |text| <= v.cols
    ensures Valid(w)
  {
    RowFits(v.row, v.rows, v.cols);
    v.(cells := Overwritten(v.cells, Start(v.row, v.cols), text), col := |text|)
  }

  /** The overflow is the end of the row in the vector. */
  lemma {:induction false} OverflowEnds(v: View)
    requires Valid(v)
    ensures var ov, edge := Overflow(Line(v, v.row)), Start(v.row + 1, v.cols);
            |ov| < v.cols <= edge <= |v.cells| && v.cells[edge - |ov|..edge] == ov
    ensures var n := SpaceEnd(Line(v, v.row));
            |Overflow(Line(v, v.row))| == if 0 < n < v.cols then v.cols - n else 0
  {
    RowFits(v.row, v.rows, v.cols);
    var line, edge := Line(v, v.row), Start(v.row + 1, v.cols);
    var k := |Overflow(line)|;
    assert line[v.cols - k..] == v.cells[edge - k..edge];
  }

  function Wrapped(v: View): (w: View)
    requires Valid(v)
    ensures Valid(w) && w.col < w.cols
  {
    var ov := Overflow(Line(v, v.row));
    Placed(Fed(Shortened(v, |ov|)), ov)
  }

  function Inked(v: View, ch: char): Cell {
    if v.inverse then Cell(ch, v.bg, v.fg) else Cell(ch, v.fg, v.bg)
  }

  function Struck(v: View, ch: char): (w: View)
    requires Valid(v) && v.col < v.cols
    ensures Valid(w)
  {
    v.(cells := v.cells[Cursor(v) := Inked(v, ch)], col := v.col + 1)
  }

  function Typed(v: View, ch: char): (w: View)
    requires Valid(v)
    ensures Valid(w)
  {
    var u := v.(afterCr := false);
    Struck(if u.col >= u.cols then Wrapped(u) else u, ch)
  }

  // ---- Control characters ----

  function Tab(col: nat): nat { (col / 8 + 1) * 8 }

  function Executed(v: View, code: nat): (w: View)
    requires Valid(v)
    ensures Valid(w)
  {
    var u := v.(afterCr := code == 0x0D);
    if code == 0x08 then u.(col := if u.col > 0 then u.col - 1 else 0)
    else if code == 0x09 then
      if Tab(u.col) < u.cols then u.(col := Tab(u.col))
      else Fed(u.(soft := u.soft[u.row := true], col := 0))
    else if code == 0x0A || code == 0x0B || code == 0x0C then Broken(u)
    else if code == 0x0D then u.(col := 0)
    else u
  }

  // ---- Control sequences ----

  function Below(x: nat, bound: nat): nat
    requires bound > 0
  {
    if x < bound then x else bound - 1
  }

  function FirstParam(params: seq<nat>, default: nat): (n: nat)
    ensures default > 0 ==> n > 0
  {
    if params == [] || params[0] == 0 then default else params[0]
  }

  function NthRaw(params: seq<nat>, n: nat): nat {
    if n < |params| then params[n] else 0
  }

  /** The first row of the logical line that row `r` belongs to. */
  function First(soft: seq<bool>, r: nat): (f: nat)
    requires r < |soft|
    ensures f <= r && (forall k | f <= k < r :: soft[k]) && (f > 0 ==> !soft[f - 1])
  {
    if r > 0 && soft[r - 1] then First(soft, r - 1) else r
  }

  /** The last one. */
  function Last(soft: seq<bool>, r: nat): (l: nat)
    requires r < |soft|
    ensures r <= l < |soft| && (forall k | r <= k < l :: soft[k]) && (l + 1 < |soft| ==> !soft[l])
    decreases |soft| - r
  {
    if r + 1 < |soft| && soft[r] then Last(soft, r + 1) else r
  }

  /** Where the cursor goes when it moves left into a soft row: past the separating space. */
  function RowEnd(cells: seq<Cell>): (n: nat)
    ensures n <= |cells|
  {
    var n := TextLength(cells);
    if n == 0 then 0 else if n < |cells| then n + 1 else n
  }

  /** How many places the cursor is from the start of its logical line. */
  function Offset(v: View): nat
    requires Valid(v)
    decreases v.row
  {
    if v.row > 0 && v.soft[v.row - 1] then v.col + Offset(UpLeft(v)) else v.col
  }

  /** At the end of the row above. */
  function UpLeft(v: View): (w: View)
    requires Valid(v) && v.row > 0
    ensures Valid(w)
  {
    v.(row := v.row - 1, col := RowEnd(Line(v, v.row - 1)))
  }

  function MovedLeft(v: View, count: nat): (w: View)
    requires Valid(v)
    ensures Valid(w)
    decreases v.row
  {
    if count <= v.col then v.(col := v.col - count)
    else if v.row == 0 || !v.soft[v.row - 1] then v.(col := 0)
    else MovedLeft(UpLeft(v), count - v.col)
  }

  lemma {:induction false} MovedLeftCases(v: View, count: nat)
    requires Valid(v)
    ensures count <= v.col ==> MovedLeft(v, count) == v.(col := v.col - count)
    ensures count > v.col && (v.row == 0 || !v.soft[v.row - 1]) ==> MovedLeft(v, count) == v.(col := 0)
    ensures count > v.col && v.row > 0 && v.soft[v.row - 1] ==>
              MovedLeft(v, count) == MovedLeft(UpLeft(v), count - v.col)
  {
  }

  /** Moving left goes that many places towards the start of the logical line and stops there. */
  lemma {:induction false} MoveLeftIsExact(v: View, count: nat)
    requires Valid(v)
    ensures var w := MovedLeft(v, count);
            && Offset(w) == (if count <= Offset(v) then Offset(v) - count else 0)
            && w == v.(row := w.row, col := w.col) && w.row <= v.row
            && First(v.soft, w.row) == First(v.soft, v.row) && (count > 0 ==> w.col < w.cols)
    decreases v.row
  {
    hide UpLeft, First, Offset, AllWide, Start, MovedLeft;
    MovedLeftCases(v, count);
    if count <= v.col {
      OffsetByColumn(v, v.col - count);
    } else if v.row == 0 || !v.soft[v.row - 1] {
      OffsetByColumn(v, 0);
      OffsetAtFirst(v);
    } else {
      UpLeftIs(v);
      OffsetBehind(v);
      MoveLeftIsExact(UpLeft(v), count - v.col);
    }
  }

  lemma {:induction false} OffsetAtFirst(v: View)
    requires Valid(v) && (v.row == 0 || !v.soft[v.row - 1])
    ensures Offset(v) == v.col
  {
  }

  lemma {:induction false} OffsetBehind(v: View)
    requires Valid(v) && v.row > 0 && v.soft[v.row - 1]
    ensures Offset(v) == v.col + Offset(UpLeft(v)) && First(v.soft, v.row) == First(v.soft, v.row - 1)
  {
  }

  lemma {:induction false} UpLeftIs(v: View)
    requires Valid(v) && v.row > 0
    ensures UpLeft(v) == v.(row := v.row - 1, col := UpLeft(v).col)
  {
  }

  lemma {:induction false} OffsetByColumn(v: View, col: nat)
    requires Valid(v) && col <= v.cols
    ensures Offset(v.(col := col)) + v.col == Offset(v) + col
  {
  }

  /** Where the cursor goes. Moving up or down keeps the column, even one past the edge; the clamp comes
      afterwards. */
  function Moved(v: View, action: char, params: seq<nat>): (w: View)
    requires Valid(v)
    ensures Valid(w)
  {
    var n, m := FirstParam(params, 1), AtLeastOne(NthRaw(params, 1));
    if action == 'A' then v.(row := if n <= v.row then v.row - n else 0)
    else if action == 'B' then v.(row := Below(v.row + n, v.rows))
    else if action == 'C' then v.(col := Below(v.col + n, v.cols))
    else v.(row := Below(n - 1, v.rows), col := Below(m - 1, v.cols))
  }

  /** The cells an erase sequence covers: J for the screen, K for the row, cut at the end. */
  function Erased(action: char, n: nat, row: nat, col: nat, cols: nat, len: nat): (nat, nat) {
    var line := Start(row, cols);
    var past := if line + col + 1 <= len then line + col + 1 else len;
    if action == 'J' then
      if n == 0 then (line + col, len) else if n == 1 then (0, past) else if n <= 3 then (0, len) else (0, 0)
    else
      if n == 0 then (line + col, line + cols) else if n == 1 then (line, past)
      else if n == 2 then (line, line + cols) else (0, 0)
  }

  /** Rows `first` to `last` continue nowhere. */
  function Unjoined(soft: seq<bool>, first: nat, last: nat): seq<bool> {
    seq(|soft|, k requires 0 <= k < |soft| => soft[k] && !(first <= k <= last))
  }

  /** The logical line under the cursor, erased: its rows, all of them and no others, become empty and
      separate, and the cursor goes to its start. */
  function LineErased(v: View): (w: View)
    requires Valid(v)
    ensures Valid(w)
  {
    var first, last := First(v.soft, v.row), Last(v.soft, v.row);
    StartMonotone(first, last + 1, v.cols);
    StartMonotone(last + 1, v.rows, v.cols);
    v.(cells := Cleared(v.cells, Start(first, v.cols), Start(last + 1, v.cols)),
       soft := Unjoined(v.soft, first, last),
       row := first, col := 0)
  }

  function RangeErased(v: View, action: char, n: nat): (w: View)
    requires Valid(v)
    ensures Valid(w)
  {
    RowFits(v.row, v.rows, v.cols);
    var (from, to) := Erased(action, n, v.row, v.col, v.cols, |v.cells|);
    v.(cells := Cleared(v.cells, from, to),
       soft := if action == 'J' && 2 <= n <= 3 then seq(v.rows, i => false) else v.soft)
  }

  function ErasedBy(v: View, action: char, n: nat): (w: View)
    requires Valid(v)
    ensures Valid(w)
  {
    if action == 'K' && n == 2 && v.afterCr then LineErased(v) else RangeErased(v, action, n)
  }

  const PALETTE: seq<Colour> :=
    [Rgb(0x00, 0x00, 0x00), Rgb(0xCC, 0x24, 0x1D), Rgb(0x98, 0x97, 0x1A), Rgb(0xD7, 0x99, 0x21),
     Rgb(0x45, 0x85, 0x88), Rgb(0xB1, 0x62, 0x86), Rgb(0x68, 0x9D, 0x6A), Rgb(0xA8, 0x99, 0x84)]

  function Brighter(x: nat): nat { if x + 40 > 255 then 255 else x + 40 }

  function AnsiColour(i: nat, bright: bool): Colour {
    var c := PALETTE[if i < 8 then i else 7];
    if bright then Rgb(Brighter(c.r), Brighter(c.g), Brighter(c.b)) else c
  }

  function Reset(v: View): View { v.(fg := DEFAULT_FG, bg := DEFAULT_BG, inverse := false) }

  function Styled(v: View, code: nat): View {
    if code == 0 then Reset(v)
    else if code == 7 then v.(inverse := true)
    else if code == 27 then v.(inverse := false)
    else if 30 <= code <= 37 then v.(fg := AnsiColour(code - 30, false))
    else if code == 39 then v.(fg := DEFAULT_FG)
    else if 40 <= code <= 47 then v.(bg := AnsiColour(code - 40, false))
    else if code == 49 then v.(bg := DEFAULT_BG)
    else if 90 <= code <= 97 then v.(fg := AnsiColour(code - 90, true))
    else if 100 <= code <= 107 then v.(bg := AnsiColour(code - 100, true))
    else v
  }

  function StyledAll(v: View, codes: seq<nat>): View {
    if codes == [] then v else Styled(StyledAll(v, codes[..|codes| - 1]), codes[|codes| - 1])
  }

  function Sgr(v: View, params: seq<nat>): View {
    if params == [] then Reset(v) else StyledAll(v, params)
  }

  /** Styling touches nothing but the colours of what is written next, and only the codes after the last
      reset matter. */
  lemma {:induction false} StyleIsLocal(v: View, before: seq<nat>, codes: seq<nat>)
    ensures Sgr(v, codes) == v.(fg := Sgr(v, codes).fg, bg := Sgr(v, codes).bg, inverse := Sgr(v, codes).inverse)
    ensures StyledAll(v, before + [0] + codes) == StyledAll(Reset(v), codes)
    decreases |codes|
  {
    StyleKeeps(v, codes);
    if codes == [] {
      assert before + [0] + codes == before + [0];
      assert (before + [0])[..|before|] == before;
      StyleKeeps(v, before);
    } else {
      var n := |codes| - 1;
      assert (before + [0] + codes)[..|before| + 1 + n] == before + [0] + codes[..n];
      StyleIsLocal(v, before, codes[..n]);
    }
  }

  lemma {:induction false} StyleKeeps(v: View, codes: seq<nat>)
    ensures var w := StyledAll(v, codes); w == v.(fg := w.fg, bg := w.bg, inverse := w.inverse)
  {
    if codes != [] {
      StyleKeeps(v, codes[..|codes| - 1]);
    }
  }

  function Clamped(v: View): (w: View)
    requires Valid(v)
    ensures Valid(w) && w.col < w.cols
  {
    v.(row := Below(v.row, v.rows), col := Below(v.col, v.cols))
  }

  function Dispatched(v: View, params: seq<nat>, ignore: bool, action: char): (w: View)
    requires Valid(v)
    ensures Valid(w)
  {
    if ignore then v
    else
      StyleIsLocal(v, [], params);
      var u := if action in "ABCHf" then Moved(v, action, params)
               else if action == 'D' then MovedLeft(v, FirstParam(params, 1))
               else if action == 'J' || action == 'K' then ErasedBy(v, action, NthRaw(params, 0))
               else if action == 'm' then Sgr(v, params)
               else v;
      Clamped(u.(afterCr := false))
  }

  // ---- Output ----

  /** What the escape-sequence parser makes of output: characters to print, control codes to execute and
      complete control sequences. */
  datatype Call = Print(ch: char) | Code(code: nat) | Csi(params: seq<nat>, ignore: bool, action: char)

  function Received(v: View, call: Call): (w: View)
    requires Valid(v)
    ensures Valid(w)
  {
    match call
    case Print(ch) => Typed(v, ch)
    case Code(code) => Executed(v, code)
    case Csi(params, ignore, action) => Dispatched(v, params, ignore, action)
  }

  function ReceivedAll(v: View, calls: seq<Call>): (w: View)
    requires Valid(v)
    ensures Valid(w)
    decreases |calls|
  {
    if calls == [] then v else Received(ReceivedAll(v, calls[..|calls| - 1]), calls[|calls| - 1])
  }

  /** A piece of output arrives: the view goes back to the newest rows. */
  function Processed(v: View, calls: seq<Call>): (w: View)
    requires Valid(v)
    ensures Valid(w)
  {
    ReceivedAll(v, calls).(viewOff := 0)
  }

  // ---- Erasing up to the cursor ----

  /** Erasing from the start of the row to the cursor stays within the row exactly when the cursor
      is on a cell, or the row below has nothing to lose: a cursor resting past the right edge takes
      the first cell of the next row along. */
  lemma {:induction false} EraseLeftStaysInRowIff(c: seq<Cell>, row: nat, col: nat, cols: nat, rows: nat)
    requires row < rows && 0 < cols && col <= cols && |c| == Start(rows, cols)
    ensures Start(row, cols) + cols <= |c|
    ensures var (from, to) := Erased('K', 1, row, col, cols, |c|);
            var line := Start(row, cols);
            && from <= to <= |c|
            && (Cleared(c, from, to)[..line] == c[..line] && Cleared(c, from, to)[line + cols..] == c[line + cols..]
                <==> (col < cols || line + cols == |c| || c[line + cols] == EMPTY))
  {
    hide Start, Cleared;
    RowFits(row, rows, cols);
    var line := Start(row, cols);
    if col < cols || line + cols == |c| {
      ClearedBefore(c, line, if col < cols then line + col + 1 else line + cols, line + cols);
    } else {
      ClearedPast(c, line, line + cols);
    }
  }

  /** The same of erasing from the start of the screen: what is below the cursor's row stays. */
  lemma {:induction false} EraseAboveStaysAboveIff(c: seq<Cell>, row: nat, col: nat, cols: nat, rows: nat)
    requires row < rows && 0 < cols && col <= cols && |c| == Start(rows, cols)
    ensures Start(row, cols) + cols <= |c|
    ensures var (from, to) := Erased('J', 1, row, col, cols, |c|);
            var below := Start(row, cols) + cols;
            && from <= to <= |c|
            && (Cleared(c, from, to)[below..] == c[below..] <==> (col < cols || below == |c| || c[below] == EMPTY))
  {
    hide Start, Cleared;
    RowFits(row, rows, cols);
    var below := Start(row, cols) + cols;
    if col < cols || below == |c| {
      ClearedBefore(c, 0, if col < cols then Start(row, cols) + col + 1 else below, below);
    } else {
      ClearedPast(c, 0, below);
    }
  }

  lemma {:induction false} ClearedBefore(c: seq<Cell>, from: nat, to: nat, edge: nat)
    requires from <= to <= edge <= |c|
    ensures Cleared(c, from, to)[..from] == c[..from] && Cleared(c, from, to)[edge..] == c[edge..]
  {
  }

  lemma {:induction false} ClearedPast(c: seq<Cell>, from: nat, edge: nat)
    requires from <= edge < |c|
    ensures Cleared(c, from, edge + 1)[..from] == c[..from]
    ensures Cleared(c, from, edge + 1)[edge..] == c[edge..] <==> c[edge] == EMPTY
  {
    var d := Cleared(c, from, edge + 1);
    assert d[edge..][0] == d[edge] == EMPTY && c[edge..][0] == c[edge];
    assert d[edge + 1..] == c[edge + 1..];
    assert d[edge..] == [d[edge]] + d[edge + 1..] && c[edge..] == [c[edge]] + c[edge + 1..];
  }

  // ---- Nothing is lost but the oldest lines of a full scrollback ----

  lemma {:induction false} RowCellsLength(rows: seq<Row>, cols: nat)
    requires AllWide(rows, cols)
    ensures |RowCells(rows)| == Start(|rows|, cols)
    decreases |rows|
  {
    if rows != [] {
      RowCellsLength(rows[..|rows| - 1], cols);
    }
  }

  lemma {:induction false} NewestSplits(rows: seq<Row>, limit: nat)
    ensures Dropped(rows, limit) + Newest(rows, limit) == rows
    ensures RowCells(Dropped(rows, limit)) + RowCells(Newest(rows, limit)) == RowCells(rows)
  {
    assert Dropped(rows, limit) + Newest(rows, limit) == rows;
    RowCellsConcat(Dropped(rows, limit), Newest(rows, limit));
  }

  /** Scrolling takes nothing away: history and screen read on as before, followed by a blank row. */
  lemma {:induction false} ScrolledAll(v: View)
    requires Valid(v)
    ensures All(Scrolled(v)) == All(v) + Spaces(v.cols)
  {
    hide RowCells;
    RowFits(0, v.rows, v.cols);
    var r := Row(v.cells[..v.cols], v.soft[0]);
    var all := v.scrollback + [r];
    NewestSplits(all, SCROLLBACK_MAX);
    RowCellsPush(v.scrollback, r);
    Regrouped(v.lost, RowCells(Dropped(all, SCROLLBACK_MAX)), RowCells(Newest(all, SCROLLBACK_MAX)),
              RowCells(v.scrollback), r.cells, v.cells[v.cols..], Spaces(v.cols));
    assert v.cells == r.cells + v.cells[v.cols..];
  }

  lemma {:induction false} Regrouped(lost: seq<Cell>, x: seq<Cell>, y: seq<Cell>, sb: seq<Cell>, r: seq<Cell>,
                                     rest: seq<Cell>, blank: seq<Cell>)
    requires x + y == sb + r
    ensures (lost + x) + y + (rest + blank) == lost + sb + (r + rest) + blank
  {
    assert (lost + x) + y + (rest + blank) == lost + (x + y) + rest + blank;
  }

  /** A step that loses at most the oldest line, and that only out of a full scrollback. */
  predicate Frugal(v: View, w: View) {
    && (w.lost == v.lost || (|v.scrollback| == 256 && w.lost == v.lost + v.scrollback[0].cells))
    && (w.lost != v.lost ==> |w.scrollback| == 256)
    && |v.scrollback| <= |w.scrollback| <= |v.scrollback| + 1
  }

  lemma {:induction false} ScrolledIsFrugal(v: View)
    requires Valid(v)
    ensures Frugal(v, Scrolled(v))
  {
    RowFits(0, v.rows, v.cols);
    var all := v.scrollback + [Row(v.cells[..v.cols], v.soft[0])];
    NoInk();
    if |all| > SCROLLBACK_MAX {
      assert Dropped(all, SCROLLBACK_MAX) == [] + [v.scrollback[0]];
      RowCellsPush([], v.scrollback[0]);
      assert [] + v.scrollback[0].cells == v.scrollback[0].cells;
    } else {
      assert v.lost + [] == v.lost;
    }
  }

  /** Every call costs at most one line. */
  lemma {:induction false} ReceivedIsFrugal(v: View, call: Call)
    requires Valid(v)
    ensures Frugal(v, Received(v, call))
  {
    hide Typed, Executed, Dispatched, Frugal;
    match call
    case Print(ch) => TypedIsFrugal(v, ch);
    case Code(code) => ExecutedIsFrugal(v, code);
    case Csi(params, ignore, action) => DispatchedKeepsHistory(v, params, ignore, action);
  }

  predicate SameHistory(v: View, w: View) {
    w.lost == v.lost && w.scrollback == v.scrollback && w.cols == v.cols && w.rows == v.rows
  }

  lemma {:induction false} MovedKeepsHistory(v: View, action: char, params: seq<nat>)
    requires Valid(v)
    ensures SameHistory(v, Moved(v, action, params))
  {
    hide Valid, Shaped, FirstParam, NthRaw, Below;
  }

  lemma {:induction false} ErasedKeepsHistory(v: View, action: char, n: nat)
    requires Valid(v)
    ensures SameHistory(v, ErasedBy(v, action, n))
  {
    hide Cleared, Erased, First, Last, Unjoined, Start;
  }

  /** No control sequence touches the scrollback or the size. */
  lemma {:induction false} DispatchedKeepsHistory(v: View, params: seq<nat>, ignore: bool, action: char)
    requires Valid(v)
    ensures SameHistory(v, Dispatched(v, params, ignore, action)) && Frugal(v, Dispatched(v, params, ignore, action))
  {
    hide Valid, Moved, MovedLeft, ErasedBy, Sgr, Offset, First, FirstParam, NthRaw, Below;
    StyleIsLocal(v, [], params);
    MoveLeftIsExact(v, FirstParam(params, 1));
    MovedKeepsHistory(v, action, params);
    ErasedKeepsHistory(v, action, NthRaw(params, 0));
  }

  lemma {:induction false} TypedIsFrugal(v: View, ch: char)
    requires Valid(v)
    ensures Frugal(v, Typed(v, ch))
  {
    hide Fed, Overwritten, Cleared, Overflow, Line;
    var u := v.(afterCr := false);
    FedIsFrugal(Shortened(u, |Overflow(Line(u, u.row))|));
  }

  lemma {:induction false} ExecutedIsFrugal(v: View, code: nat)
    requires Valid(v)
    ensures Frugal(v, Executed(v, code))
  {
    hide Fed;
    var u := v.(afterCr := code == 0x0D);
    FedIsFrugal(u.(soft := u.soft[u.row := true], col := 0));
    FedIsFrugal(u.(soft := u.soft[u.row := false], col := 0));
  }

  lemma {:induction false} BrokenKeeps(v: View)
    requires Valid(v)
    ensures Ink(All(Broken(v))) == Ink(All(v)) && Frugal(v, Broken(v))
  {
    hide Ink, All, Fed;
    var u := v.(soft := v.soft[v.row := false], col := 0);
    SameAll(v, u);
    FedInk(u);
    FedIsFrugal(u);
  }

  lemma {:induction false} FedIsFrugal(v: View)
    requires Valid(v)
    ensures Frugal(v, Fed(v))
  {
    hide Scrolled;
    ScrolledIsFrugal(v);
  }

  /** Over a whole piece of output, control sequences included: what is lost is lost for good, at most a
      line for each call, and nothing as long as the scrollback has room. */
  lemma {:induction false} OutputIsFrugal(v: View, calls: seq<Call>)
    requires Valid(v)
    ensures var w := ReceivedAll(v, calls);
            && v.lost <= w.lost && |v.scrollback| <= |w.scrollback| <= |v.scrollback| + |calls|
            && (|v.scrollback| + |calls| <= SCROLLBACK_MAX ==> w.lost == v.lost)
            && (w.lost != v.lost ==> |w.scrollback| == SCROLLBACK_MAX)
            && |w.lost| <= |v.lost| + Start(|calls|, v.cols) && w.cols == v.cols
    decreases |calls|
  {
    hide Received;
    if calls != [] {
      var n := |calls| - 1;
      OutputIsFrugal(v, calls[..n]);
      ReceivedIsFrugal(ReceivedAll(v, calls[..n]), calls[n]);
      ReceivedKeepsSize(ReceivedAll(v, calls[..n]), calls[n]);
    }
  }

  lemma {:induction false} FedKeepsSize(v: View)
    requires Valid(v)
    ensures SameSize(v, Fed(v))
  {
    hide Newest, Dropped, RowCells, Spaces, Valid, Shaped;
  }

  /** Dimensions and colours are the same. */
  predicate SameSize(v: View, w: View) {
    w.cols == v.cols && w.rows == v.rows && w.fg == v.fg && w.bg == v.bg && w.inverse == v.inverse
  }

  lemma {:induction false} WrapKeepsSize(v: View)
    requires Valid(v)
    ensures SameSize(v, Wrapped(v))
  {
    hide Fed, Overwritten, Cleared, Overflow, Line, Spaces;
    FedKeepsSize(Shortened(v, |Overflow(Line(v, v.row))|));
  }

  lemma {:induction false} TypedKeepsSize(v: View, ch: char)
    requires Valid(v)
    ensures SameSize(v, Typed(v, ch))
  {
    hide Wrapped;
    WrapKeepsSize(v.(afterCr := false));
  }

  lemma {:induction false} ExecutedKeepsSize(v: View, code: nat)
    requires Valid(v)
    ensures SameSize(v, Executed(v, code))
  {
    hide Fed;
    var u := v.(afterCr := code == 0x0D);
    FedKeepsSize(u.(soft := u.soft[u.row := true], col := 0));
    FedKeepsSize(u.(soft := u.soft[u.row := false], col := 0));
  }

  lemma {:induction false} ReceivedKeepsSize(v: View, call: Call)
    requires Valid(v)
    ensures Received(v, call).cols == v.cols && Received(v, call).rows == v.rows
    ensures !call.Csi? ==> SameSize(v, Received(v, call))
  {
    hide Typed, Executed, Dispatched;
    match call
    case Print(ch) => TypedKeepsSize(v, ch);
    case Code(code) => ExecutedKeepsSize(v, code);
    case Csi(params, ignore, action) => DispatchedKeepsHistory(v, params, ignore, action);
  }

  // ---- Appending text ----

  /** Nothing follows the cursor. */
  predicate AtEnd(v: View)
    requires Valid(v)
  {
    Blank(v.cells[Cursor(v)..])
  }

  predicate BlankFrom(v: View, r: nat)
    requires Valid(v) && r <= v.rows
  {
    StartMonotone(r, v.rows, v.cols);
    Blank(v.cells[Start(r, v.cols)..])
  }

  /** A line feed keeps the ink, and what was blank below is blank from the new row on. */
  lemma {:induction false} FedInk(v: View)
    requires Valid(v)
    ensures Ink(All(Fed(v))) == Ink(All(v)) && (BlankFrom(v, v.row + 1) ==> BlankFrom(Fed(v), Fed(v).row))
  {
    hide Ink, All;
    RowFits(v.row, v.rows, v.cols);
    if v.row + 1 < v.rows {
      SameAll(v, v.(row := v.row + 1));
    } else {
      ScrolledAll(v);
      InkOfTail(All(v), v.cols);
      ShiftedEnd(v.cells, v.cols);
    }
  }

  lemma {:induction false} SameAll(v: View, w: View)
    requires w.lost == v.lost && w.scrollback == v.scrollback && w.cells == v.cells
    ensures All(w) == All(v)
  {
  }

  lemma {:induction false} ShortenedInk(v: View)
    requires Valid(v) && BlankFrom(v, v.row + 1)
    ensures var ov := Overflow(Line(v, v.row));
            var w := Shortened(v, |ov|);
            && BlankFrom(w, w.row + 1) && w.row == v.row && Ink(All(v)) == Ink(All(w)) + Ink(ov)
  {
    hide Ink, RowCells, Overflow, Line, AllWide, Blank, Cleared;
    RowFits(v.row, v.rows, v.cols);
    OverflowEnds(v);
    var ov, edge := Overflow(Line(v, v.row)), Start(v.row + 1, v.cols);
    InkOfCleared(v.lost + RowCells(v.scrollback), v.cells, edge - |ov|, edge);
    ClearedBefore(v.cells, edge - |ov|, edge, edge);
  }

  lemma {:induction false} PlacedInk(v: View, text: seq<Cell>)
    requires Valid(v) && |text| <= v.cols && BlankFrom(v, v.row)
    ensures var w := Placed(v, text); AtEnd(w) && Ink(All(w)) == Ink(All(v)) + Ink(text)
  {
    hide Ink;
    RowFits(v.row, v.rows, v.cols);
    var start := Start(v.row, v.cols);
    InkOfOverwritten(v.lost + RowCells(v.scrollback), v.cells, start, text);
    BlankSuffix(v.cells, start, start + |text|);
    assert Overwritten(v.cells, start, text)[start + |text|..] == v.cells[start + |text|..];
  }

  lemma {:induction false} WrapInk(v: View)
    requires Valid(v) && BlankFrom(v, v.row + 1)
    ensures AtEnd(Wrapped(v)) && Ink(All(Wrapped(v))) == Ink(All(v))
  {
    hide Ink, All, Fed, Shortened, Placed, Overflow, Line, BlankFrom, AtEnd;
    var ov := Overflow(Line(v, v.row));
    ShortenedInk(v);
    FedInk(Shortened(v, |ov|));
    PlacedInk(Fed(Shortened(v, |ov|)), ov);
  }

  lemma {:induction false} StruckInk(v: View, ch: char)
    requires Valid(v) && v.col < v.cols && AtEnd(v)
    ensures AtEnd(Struck(v, ch)) && Ink(All(Struck(v, ch))) == Ink(All(v)) + Ink([Inked(v, ch)])
  {
    hide Ink;
    var i := Cursor(v);
    assert Overwritten(v.cells, i, [Inked(v, ch)]) == v.cells[i := Inked(v, ch)];
    InkOfOverwritten(v.lost + RowCells(v.scrollback), v.cells, i, [Inked(v, ch)]);
    BlankSuffix(v.cells, i, i + 1);
    assert Struck(v, ch).cells[i + 1..] == v.cells[i + 1..];
  }

  lemma {:induction false} EndOfRow(v: View)
    requires Valid(v) && AtEnd(v)
    ensures BlankFrom(v, v.row + 1)
  {
    RowFits(v.row, v.rows, v.cols);
    BlankSuffix(v.cells, Cursor(v), Start(v.row + 1, v.cols));
  }

  /** A character written at the end of the text appends itself, through wraps and scrolls. */
  lemma {:induction false} TypedInk(v: View, ch: char)
    requires Valid(v) && AtEnd(v)
    ensures AtEnd(Typed(v, ch)) && Ink(All(Typed(v, ch))) == Ink(All(v)) + Ink([Inked(v, ch)])
  {
    hide Ink, All, Wrapped, Struck, BlankFrom;
    var u := v.(afterCr := false);
    SameAll(v, u);
    if u.col >= u.cols {
      EndOfRow(u);
      WrapInk(u);
      WrapKeepsSize(u);
      StruckInk(Wrapped(u), ch);
    } else {
      StruckInk(u, ch);
    }
  }

  /** Control characters move no ink, whatever the cursor is on. */
  lemma {:induction false} ExecutedInk(v: View, code: nat)
    requires Valid(v)
    ensures Ink(All(Executed(v, code))) == Ink(All(v))
  {
    hide Ink, All, Fed;
    var u := v.(afterCr := code == 0x0D);
    if code == 0x09 && Tab(u.col) >= u.cols {
      FedInk(u.(soft := u.soft[u.row := true], col := 0));
      SameAll(v, u.(soft := u.soft[u.row := true], col := 0));
    } else if code == 0x0A || code == 0x0B || code == 0x0C {
      FedInk(u.(soft := u.soft[u.row := false], col := 0));
      SameAll(v, u.(soft := u.soft[u.row := false], col := 0));
    } else {
      SameAll(v, Executed(v, code));
    }
  }

  /** Tabs and line ends leave the cursor at the end of the text. */
  lemma {:induction false} SpacingStaysAtEnd(v: View, code: nat)
    requires Valid(v) && AtEnd(v) && 0x09 <= code <= 0x0C
    ensures AtEnd(Executed(v, code))
  {
    hide Ink, All, Fed;
    EndOfRow(v);
    RowFits(v.row, v.rows, v.cols);
    if code == 0x09 && Tab(v.col) < v.cols {
      BlankSuffix(v.cells, Cursor(v), Start(v.row, v.cols) + Tab(v.col));
    } else {
      var u := v.(afterCr := false, soft := v.soft[v.row := code == 0x09], col := 0);
      FedInk(u);
      RowStart(Fed(u));
    }
  }

  lemma {:induction false} RowStart(v: View)
    requires Valid(v) && v.col == 0 && BlankFrom(v, v.row)
    ensures AtEnd(v)
  {
  }

  /** Calls that print or only move on: no control sequence, no backspace and no carriage return. */
  predicate Running(call: Call) { call.Print? || (call.Code? && 0x09 <= call.code <= 0x0C) }

  predicate AllRunning(calls: seq<Call>) { forall i | 0 <= i < |calls| :: Running(calls[i]) }

  /** The cells the printed characters are drawn with. */
  function Drawn(v: View, calls: seq<Call>): seq<Cell> {
    if calls == [] then []
    else
      var last := calls[|calls| - 1];
      Drawn(v, calls[..|calls| - 1]) + if last.Print? then [Inked(v, last.ch)] else []
  }

  /** A text of printable characters, tabs and line ends, written where nothing follows the cursor:
      whatever wraps and scrolls, what has been shown grows by exactly the text's ink. */
  lemma {:induction false} TextAppendsInk(v: View, text: seq<Call>)
    requires Valid(v) && AtEnd(v) && AllRunning(text)
    ensures var w := ReceivedAll(v, text);
            && AtEnd(w) && Ink(All(w)) == Ink(All(v)) + Ink(Drawn(v, text))
            && w.fg == v.fg && w.bg == v.bg && w.inverse == v.inverse
    decreases |text|
  {
    hide Ink, All, Typed, Executed, AtEnd;
    NoInk();
    if text != [] {
      var n := |text| - 1;
      var u, last := ReceivedAll(v, text[..n]), text[n];
      TextAppendsInk(v, text[..n]);
      ReceivedKeepsSize(u, last);
      if last.Print? {
        TypedInk(u, last.ch);
        InkConcat(Drawn(v, text[..n]), [Inked(v, last.ch)]);
      } else {
        ExecutedInk(u, last.code);
        SpacingStaysAtEnd(u, last.code);
        assert Drawn(v, text) == Drawn(v, text[..n]);
      }
    } else {
      assert Ink(All(v)) + [] == Ink(All(v));
    }
  }

  /** What can be seen afterwards is what could be seen before, followed by the text, short of exactly
      what the scrollback gave up at its old end; while it has room, that is nothing. */
  lemma {:induction false} TextStaysVisible(v: View, text: seq<Call>)
    requires Valid(v) && AtEnd(v) && AllRunning(text)
    ensures var w := Processed(v, text);
            && v.lost <= w.lost
            && Ink(w.lost[|v.lost|..]) + Ink(Visible(w)) == Ink(Visible(v)) + Ink(Drawn(v, text))
            && (|v.scrollback| + |text| <= SCROLLBACK_MAX || |w.scrollback| < SCROLLBACK_MAX ==> w.lost == v.lost)
  {
    hide Ink, RowCells, ReceivedAll, Drawn;
    TextAppendsInk(v, text);
    OutputIsFrugal(v, text);
    var w := Processed(v, text);
    var gone := w.lost[|v.lost|..];
    AllIsVisible(v);
    SameAll(ReceivedAll(v, text), w);
    AllIsVisible(w);
    assert w.lost == v.lost + gone;
    InkConcat(v.lost, gone);
    Behead(Ink(v.lost), Ink(gone), Ink(Visible(w)), Ink(Visible(v)), Ink(Drawn(v, text)));
  }

  lemma {:induction false} Behead(a: seq<Cell>, b: seq<Cell>, c: seq<Cell>, d: seq<Cell>, e: seq<Cell>)
    requires (a + b) + c == (a + d) + e
    ensures b + c == d + e
  {
    assert (a + b) + c == a + (b + c) && (a + d) + e == a + (d + e);
    assert (a + (b + c))[|a|..] == b + c && (a + (d + e))[|a|..] == d + e;
  }

  lemma {:induction false} AllIsVisible(v: View)
    ensures Ink(All(v)) == Ink(v.lost) + Ink(Visible(v))
  {
    assert All(v) == v.lost + Visible(v);
    InkConcat(v.lost, Visible(v));
  }

  // ---- Resizing ----

  /** Whether the row's last cell holds ink. */
  predicate Full(cells: seq<Cell>) { cells != [] && !Space(cells[|cells| - 1]) }

  /** The number of rows, among the first `n`, down to the last that has ink. */
  function InkedRows(v: View, n: nat): (k: nat)
    requires Shaped(v) && n <= v.rows
    ensures k <= n && (k > 0 ==> !Blank(Line(v, k - 1))) && forall r | k <= r < n :: Blank(Line(v, r))
  {
    if n == 0 then 0 else if !Blank(Line(v, n - 1)) then n else InkedRows(v, n - 1)
  }

  /** The last row with ink, or the cursor's row if that is lower. */
  function LastContent(v: View): (r: nat)
    requires Valid(v)
    ensures v.row <= r < v.rows
  {
    var k := InkedRows(v, v.rows);
    if k > v.row + 1 then k - 1 else v.row
  }

  /** The screen's first rows; a full one, unless it is the last, counts as joined to the next. */
  function ScreenRows(v: View, n: nat): (rows: seq<Row>)
    requires Shaped(v) && n <= v.rows
    ensures |rows| == n
  {
    seq(n, r requires 0 <= r < n => Row(Line(v, r), v.soft[r] || (Full(Line(v, r)) && r < n - 1)))
  }

  function OldRows(sb: seq<Row>): (rows: seq<Row>)
    ensures |rows| == |sb|
  {
    seq(|sb|, i requires 0 <= i < |sb| => Row(sb[i].cells, sb[i].soft || Full(sb[i].cells)))
  }

  /** All rows there are, from the oldest of the scrollback to the last with content. */
  function Physical(v: View): seq<Row>
    requires Valid(v)
  {
    OldRows(v.scrollback) + ScreenRows(v, LastContent(v) + 1)
  }

  function SoftOf(shown: seq<Row>, rows: nat): seq<bool> {
    seq(rows, r requires 0 <= r < rows => r < |shown| && shown[r].soft)
  }

  /** A screen showing the last of the rows, with those before them as its scrollback. */
  function Framed(v: View, kept: seq<Row>, gone: seq<Row>, cols: nat, rows: nat): (w: View)
    requires cols > 0 && rows > 0 && 0 < |kept| <= SCROLLBACK_MAX + rows && AllWide(kept, cols)
    ensures Valid(w)
  {
    var n := if |kept| < rows then |kept| else rows;
    var shown := kept[|kept| - n..];
    RowCellsLength(shown, cols);
    StartMonotone(n, rows, cols);
    v.(cols := cols, rows := rows,
       cells := RowCells(shown) + Spaces(Start(rows, cols) - Start(n, cols)), soft := SoftOf(shown, rows),
       scrollback := kept[..|kept| - n], lost := v.lost + RowCells(gone),
       row := n - 1, col := Below(TextLength(shown[n - 1].cells), cols), viewOff := 0)
  }

  lemma {:induction false} FramedParts(v: View, kept: seq<Row>, gone: seq<Row>, cols: nat, rows: nat, n: nat)
    requires cols > 0 && rows > 0 && 0 < |kept| <= SCROLLBACK_MAX + rows && AllWide(kept, cols)
    requires n == if |kept| < rows then |kept| else rows
    ensures var w, shown := Framed(v, kept, gone, cols, rows), kept[|kept| - n..];
            && Start(n, cols) <= Start(rows, cols)
            && w.cells == RowCells(shown) + Spaces(Start(rows, cols) - Start(n, cols))
            && w.soft == SoftOf(shown, rows) && w.scrollback == kept[..|kept| - n]
            && w.lost == v.lost + RowCells(gone) && w.col == Below(TextLength(shown[n - 1].cells), cols)
            && w == v.(cols := cols, rows := rows, cells := w.cells, soft := w.soft, scrollback := w.scrollback,
                       lost := w.lost, row := n - 1, col := w.col, viewOff := 0)
  {
    hide RowCells, TextLength, Start, AllWide, SoftOf, Spaces, Valid, Shaped, Below;
    StartMonotone(n, rows, cols);
  }

  lemma {:induction false} KeptIsWide(all: seq<Row>, limit: nat, cols: nat)
    requires AllWide(all, cols) && all != [] && limit > 0
    ensures AllWide(Newest(all, limit), cols) && 0 < |Newest(all, limit)| <= limit
  {
  }

  /** The screen at another size: the newest rows that fit are shown, those before them are scrollback. */
  function Refitted(v: View, cols: nat, rows: nat): (w: View)
    requires Valid(v) && cols > 0 && rows > 0
    ensures Valid(w)
  {
    if cols == v.cols && rows == v.rows then v
    else
      var all := Reflowed(Physical(v), cols);
      ReflowKeepsInk(Physical(v), cols);
      KeptIsWide(all, SCROLLBACK_MAX + rows, cols);
      Framed(v, Newest(all, SCROLLBACK_MAX + rows), Dropped(all, SCROLLBACK_MAX + rows), cols, rows)
  }

  lemma {:induction false} OldRowsCells(sb: seq<Row>)
    ensures RowCells(OldRows(sb)) == RowCells(sb)
    decreases |sb|
  {
    if sb != [] {
      var n := |sb| - 1;
      assert OldRows(sb)[..n] == OldRows(sb[..n]);
      OldRowsCells(sb[..n]);
    }
  }

  lemma {:induction false} ScreenRowsCells(v: View, rows: seq<Row>, n: nat)
    requires Shaped(v) && n <= v.rows && |rows| == n && forall r | 0 <= r < n :: rows[r].cells == Line(v, r)
    ensures Start(n, v.cols) <= |v.cells| && RowCells(rows) == v.cells[..Start(n, v.cols)]
  {
    StartMonotone(n, v.rows, v.cols);
    if n > 0 {
      ScreenRowsCells(v, rows[..n - 1], n - 1);
      assert v.cells[..Start(n, v.cols)] == v.cells[..Start(n - 1, v.cols)] + Line(v, n - 1);
    }
  }

  lemma {:induction false} BlankBelow(v: View, k: nat, n: nat)
    requires Shaped(v) && k <= n <= v.rows && forall r | k <= r < n :: Blank(Line(v, r))
    ensures Start(k, v.cols) <= Start(n, v.cols) <= |v.cells| && Blank(v.cells[Start(k, v.cols)..Start(n, v.cols)])
    decreases n
  {
    StartMonotone(n, v.rows, v.cols);
    StartMonotone(k, n, v.cols);
    if k < n {
      BlankBelow(v, k, n - 1);
      assert v.cells[Start(k, v.cols)..Start(n, v.cols)]
          == v.cells[Start(k, v.cols)..Start(n - 1, v.cols)] + Line(v, n - 1);
    }
  }

  /** The rows collected carry all that can be seen. */
  lemma {:induction false} PhysicalInk(v: View)
    requires Valid(v)
    ensures Ink(RowCells(Physical(v))) == Ink(Visible(v))
  {
    hide Ink, RowCells, Line;
    var n := LastContent(v) + 1;
    OldRowsCells(v.scrollback);
    ScreenRowsCells(v, ScreenRows(v, n), n);
    RowCellsConcat(OldRows(v.scrollback), ScreenRows(v, n));
    BlankBelow(v, n, v.rows);
    var end := Start(n, v.cols);
    assert v.cells[end..] == v.cells[end..Start(v.rows, v.cols)];
    InkOfBlank(v.cells[end..]);
    InkConcat(RowCells(v.scrollback) + v.cells[..end], v.cells[end..]);
    assert Visible(v) == (RowCells(v.scrollback) + v.cells[..end]) + v.cells[end..];
  }

  /** Resizing keeps what can be seen, in order. Only if the text needs more rows than scrollback and
      screen hold do the oldest of them go, exactly as many as are too many. */
  lemma {:induction false} ResizeKeepsInk(v: View, cols: nat, rows: nat)
    requires Valid(v) && cols > 0 && rows > 0 && (cols != v.cols || rows != v.rows)
    ensures var w, all := Refitted(v, cols, rows), Reflowed(Physical(v), cols);
            var gone := Dropped(all, SCROLLBACK_MAX + rows);
            && Ink(RowCells(gone)) + Ink(Visible(w)) == Ink(Visible(v))
            && w.lost == v.lost + RowCells(gone)
            && (|all| <= SCROLLBACK_MAX + rows ==> gone == [])
            && (|all| > SCROLLBACK_MAX + rows ==>
                  |gone| == |all| - (SCROLLBACK_MAX + rows) && |w.scrollback| == SCROLLBACK_MAX)
  {
    hide Ink, RowCells, Reflowed, Physical, Framed;
    var all := Reflowed(Physical(v), cols);
    var kept, gone := Newest(all, SCROLLBACK_MAX + rows), Dropped(all, SCROLLBACK_MAX + rows);
    PhysicalInk(v);
    ReflowKeepsInk(Physical(v), cols);
    KeptIsWide(all, SCROLLBACK_MAX + rows, cols);
    NewestSplits(all, SCROLLBACK_MAX + rows);
    InkConcat(RowCells(gone), RowCells(kept));
    FramedShows(v, kept, gone, cols, rows);
  }

  /** For any two sizes: what can be seen is kept, short of what a full scrollback gave up. */
  lemma {:induction false} RefittedIsFrugal(v: View, cols: nat, rows: nat)
    requires Valid(v) && cols > 0 && rows > 0
    ensures var w := Refitted(v, cols, rows);
            && v.lost <= w.lost && Ink(w.lost[|v.lost|..]) + Ink(Visible(w)) == Ink(Visible(v))
            && (w.lost != v.lost ==> |w.scrollback| == SCROLLBACK_MAX)
  {
    hide Ink, RowCells, Visible, Reflowed, Physical, Framed;
    NoInk();
    if cols == v.cols && rows == v.rows {
      assert v.lost[|v.lost|..] == [] && [] + Ink(Visible(v)) == Ink(Visible(v));
    } else {
      ResizeKeepsInk(v, cols, rows);
      var w, all := Refitted(v, cols, rows), Reflowed(Physical(v), cols);
      var gone := RowCells(Dropped(all, SCROLLBACK_MAX + rows));
      assert w.lost[|v.lost|..] == gone;
      if |all| <= SCROLLBACK_MAX + rows {
        assert v.lost + [] == v.lost;
      }
    }
  }

  lemma {:induction false} FramedShows(v: View, kept: seq<Row>, gone: seq<Row>, cols: nat, rows: nat)
    requires cols > 0 && rows > 0 && 0 < |kept| <= SCROLLBACK_MAX + rows && AllWide(kept, cols)
    ensures var w := Framed(v, kept, gone, cols, rows);
            && Ink(Visible(w)) == Ink(RowCells(kept)) && w.lost == v.lost + RowCells(gone)
            && (|kept| == SCROLLBACK_MAX + rows ==> |w.scrollback| == SCROLLBACK_MAX)
  {
    hide Ink, RowCells, AllWide, TextLength;
    var n := if |kept| < rows then |kept| else rows;
    StartMonotone(n, rows, cols);
    var a, b, pad := RowCells(kept[..|kept| - n]), RowCells(kept[|kept| - n..]), Spaces(Start(rows, cols) - Start(n, cols));
    assert kept == kept[..|kept| - n] + kept[|kept| - n..];
    RowCellsConcat(kept[..|kept| - n], kept[|kept| - n..]);
    assert a + (b + pad) == (a + b) + pad;
    InkOfTail(RowCells(kept), Start(rows, cols) - Start(n, cols));
  }
}
