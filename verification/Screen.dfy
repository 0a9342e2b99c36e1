/** The terminal's screen, updated in place. Every method is proved against the function on values of
    the same meaning; what the screen promises is proved about those in `ScreenModel`. */
module TerminalScreen {

  import opened Reflow
  import opened ScreenModel

  class Screen {
    var cols: nat
    var rows: nat
    var cells: seq<Cell>
    var rowSoft: seq<bool>
    var scrollback: seq<Row>
    var viewOff: nat
    var row: nat
    var col: nat
    var fg: Colour
    var bg: Colour
    var inverse: bool
    var afterCarriageReturn: bool
    ghost var lost: seq<Cell>      // what has left the scrollback

    ghost function Now(): View
      reads this
    {
      View(cols, rows, cells, rowSoft, scrollback, lost, row, col, viewOff, afterCarriageReturn, fg, bg, inverse)
    }

    constructor (requestedCols: nat, requestedRows: nat)
      ensures Now() == BlankScreen(AtLeastOne(requestedCols), AtLeastOne(requestedRows))
    {
      var c, r := AtLeastOne(requestedCols), AtLeastOne(requestedRows);
      cols, rows, cells, rowSoft := c, r, Spaces(Index(r, 0, c)), seq(r, i => false);
      scrollback, viewOff, row, col := [], 0, 0, 0;
      fg, bg, inverse, afterCarriageReturn := DEFAULT_FG, DEFAULT_BG, false, false;
      lost := [];
    }

    // ---- Scrolling ----

    method ScrollUp()
      requires Valid(Now())
      modifies `cells, `rowSoft, `scrollback, `viewOff, `lost
      ensures Now() == Scrolled(old(Now()))
      ensures All(Now()) == old(All(Now())) + Spaces(cols) && Frugal(old(Now()), Now())
    {
      hide RowCells, All, Frugal;
      ScrolledAll(Now());
      ScrolledIsFrugal(Now());
      RowFits(0, rows, cols);
      var line, soft := cells[..cols], rowSoft[0];
      cells := cells[cols..];
      rowSoft := rowSoft[1..];
      scrollback := scrollback + [Row(line, soft)];
      Evict();
      cells := cells + Spaces(cols);
      rowSoft := rowSoft + [false];
      viewOff := 0;
    }

    /** Removes lines from the front of the scrollback until it is within its bound. */
    method Evict()
      modifies `scrollback, `lost
      ensures scrollback == Newest(old(scrollback), SCROLLBACK_MAX)
      ensures lost == old(lost) + RowCells(Dropped(old(scrollback), SCROLLBACK_MAX))
    {
      hide RowCells;
      ghost var all, k := scrollback, 0;
      NoInk();
      assert all[..0] == [] && lost + [] == lost;
      while |scrollback| > SCROLLBACK_MAX
        invariant 0 <= k <= |all| && scrollback == all[k..] && lost == old(lost) + RowCells(all[..k])
        invariant k > 0 ==> |all| - k >= SCROLLBACK_MAX
      {
        assert all[..k + 1] == all[..k] + [all[k]];
        RowCellsPush(all[..k], all[k]);
        lost := lost + scrollback[0].cells;
        scrollback := scrollback[1..];
        k := k + 1;
      }
      assert all[..k] == Dropped(all, SCROLLBACK_MAX);
    }

    method LineFeed()
      requires Valid(Now())
      modifies `cells, `rowSoft, `scrollback, `viewOff, `lost, `row
      ensures Now() == Fed(old(Now()))
      ensures Ink(All(Now())) == old(Ink(All(Now()))) && Frugal(old(Now()), Now())
    {
      hide Scrolled, Ink, All, Frugal;
      FedInk(Now());
      FedIsFrugal(Now());
      if row + 1 < rows {
        row := row + 1;
      } else {
        ScrollUp();
      }
    }

    method HardBreak()
      requires Valid(Now())
      modifies `cells, `rowSoft, `scrollback, `viewOff, `lost, `row, `col
      ensures Now() == Broken(old(Now()))
      ensures Ink(All(Now())) == old(Ink(All(Now()))) && Frugal(old(Now()), Now())
    {
      hide Fed, Ink, All, Frugal;
      BrokenKeeps(Now());
      rowSoft := rowSoft[row := false];
      col := 0;
      LineFeed();
    }

    // ---- Typing ----

    /** The column after the last space of the cursor's row, 0 if there is none. */
    method BreakAt() returns (n: nat)
      requires Valid(Now())
      ensures n == SpaceEnd(Line(Now(), row))
    {
      RowFits(row, rows, cols);
      var start := Index(row, 0, cols);
      ghost var line := Line(Now(), row);
      n := cols;
      assert line[..n] == line;
      while n > 0
        invariant n <= cols && SpaceEnd(line[..n]) == SpaceEnd(line)
      {
        assert line[n - 1] == cells[start + n - 1] && line[..n][..n - 1] == line[..n - 1];
        if Space(cells[start + n - 1]) {
          return;
        }
        n := n - 1;
      }
    }

    method WrapCurrentWord()
      requires Valid(Now()) && col >= cols
      modifies `cells, `rowSoft, `scrollback, `viewOff, `lost, `row, `col
      ensures Now() == Wrapped(old(Now()))
      ensures old(BlankFrom(Now(), row + 1)) ==> AtEnd(Now()) && Ink(All(Now())) == old(Ink(All(Now())))
    {
      hide Fed, Shortened, Placed, Overflow, Line, BlankFrom, AtEnd, Ink, All;
      if BlankFrom(Now(), row + 1) {
        WrapInk(Now());
      }
      var overflow := TakeOverflow();
      LineFeed();
      PlaceOverflow(overflow);
    }

    /** Takes the word under way off the end of the row, which becomes soft. */
    method TakeOverflow() returns (overflow: seq<Cell>)
      requires Valid(Now())
      modifies `cells, `rowSoft, `col
      ensures overflow == Overflow(Line(old(Now()), row)) && Now() == Shortened(old(Now()), |overflow|)
    {
      hide SpaceEnd, Cleared, AllWide, Overflow, Line, Start;
      RowFits(row, rows, cols);
      OverflowEnds(Now());
      var start := Index(row, 0, cols);
      var n := BreakAt();
      overflow := [];
      if 0 < n < cols {
        overflow := cells[start + n..start + cols];
        cells := Cleared(cells, start + n, start + cols);
      } else {
        ClearedAt(cells, start + cols);
      }
      rowSoft := rowSoft[row := true];
      col := 0;
    }

    /** Cells placed from the start of the row; they are fewer than the row holds, so it never wraps. */
    method PlaceOverflow(overflow: seq<Cell>)
      requires Valid(Now()) && col == 0 && |overflow| < cols
      modifies `cells, `col
      ensures Now() == Placed(old(Now()), overflow)
    {
      hide AllWide, Start;
      RowFits(row, rows, cols);
      var start := Index(row, 0, cols);
      while col < |overflow|
        invariant col <= |overflow| && cells == Overwritten(old(cells), start, overflow[..col])
      {
        assert overflow[..col + 1] == overflow[..col] + [overflow[col]];
        cells := cells[start + col := overflow[col]];
        col := col + 1;
      }
      assert overflow[..col] == overflow;
    }

    method Put(ch: char)
      requires Valid(Now())
      modifies this
      ensures Now() == Typed(old(Now()), ch) && Frugal(old(Now()), Now())
      ensures old(AtEnd(Now())) ==>
                AtEnd(Now()) && Ink(All(Now())) == old(Ink(All(Now()))) + Ink([Inked(old(Now()), ch)])
    {
      hide Wrapped, Struck, AtEnd, Ink, All, Frugal, Inked;
      TypedIsFrugal(Now(), ch);
      if AtEnd(Now()) {
        TypedInk(Now(), ch);
      }
      afterCarriageReturn := false;
      if col >= cols {
        WrapCurrentWord();
      }
      Strike(ch);
    }

    method Strike(ch: char)
      requires Valid(Now()) && col < cols
      modifies `cells, `col
      ensures Now() == Struck(old(Now()), ch)
    {
      RowFits(row, rows, cols);
      var i := Index(row, col, cols);
      cells := cells[i := if inverse then Cell(ch, bg, fg) else Cell(ch, fg, bg)];
      col := col + 1;
    }

    method Execute(code: nat)
      requires Valid(Now())
      modifies this
      ensures Now() == Executed(old(Now()), code)
      ensures Ink(All(Now())) == old(Ink(All(Now()))) && Frugal(old(Now()), Now())
    {
      hide Fed, Ink, All, Frugal;
      ExecutedInk(Now(), code);
      ExecutedIsFrugal(Now(), code);
      afterCarriageReturn := false;
      if code == 0x08 {
        if col > 0 {
          col := col - 1;
        }
      } else if code == 0x09 {
        if Tab(col) < cols {
          col := Tab(col);
        } else {
          rowSoft := rowSoft[row := true];
          col := 0;
          LineFeed();
        }
      } else if code == 0x0A || code == 0x0B || code == 0x0C {
        HardBreak();
      } else if code == 0x0D {
        col := 0;
        afterCarriageReturn := true;
      }
    }

    // ---- Erasing ----

    /** Exactly the cells of the range, cut at the end of the screen, become empty. */
    method ClearRange(from: nat, end: nat)
      requires from <= end && from <= |cells|
      modifies `cells
      ensures cells == Cleared(old(cells), from, if end <= |old(cells)| then end else |old(cells)|)
    {
      var to := if end <= |cells| then end else |cells|;
      var i := from;
      while i < to
        invariant from <= i <= to && cells == Cleared(old(cells), from, i)
      {
        cells := cells[i := EMPTY];
        i := i + 1;
      }
    }

    method ClearLogicalLine()
      requires Valid(Now())
      modifies `cells, `rowSoft, `row, `col
      ensures Now() == LineErased(old(Now()))
    {
      hide Start, Cleared, AllWide, First, Last;
      var first := FirstRow();
      var last := LastRow();
      StartMonotone(first, last + 1, cols);
      StartMonotone(last + 1, rows, cols);
      ClearRange(Index(first, 0, cols), Index(last + 1, 0, cols));
      Unjoin(first, last);
      row := first;
      col := 0;
    }

    method FirstRow() returns (first: nat)
      requires row < |rowSoft|
      ensures first == First(rowSoft, row)
    {
      first := row;
      while first > 0 && rowSoft[first - 1]
        invariant first <= row && First(rowSoft, first) == First(rowSoft, row)
      {
        first := first - 1;
      }
    }

    method LastRow() returns (last: nat)
      requires row < |rowSoft| == rows
      ensures last == Last(rowSoft, row)
    {
      last := row;
      while last + 1 < rows && rowSoft[last]
        invariant row <= last < rows && Last(rowSoft, last) == Last(rowSoft, row)
      {
        last := last + 1;
      }
    }

    method Unjoin(first: nat, last: nat)
      requires first <= last < rows == |rowSoft|
      modifies `rowSoft
      ensures rowSoft == Unjoined(old(rowSoft), first, last)
    {
      var k := first;
      while k <= last
        invariant first <= k <= last + 1 && |rowSoft| == rows
        invariant forall j | 0 <= j < rows :: rowSoft[j] == (old(rowSoft)[j] && !(first <= j < k))
      {
        rowSoft := rowSoft[k := false];
        k := k + 1;
      }
    }

    /** CSI J and CSI K. */
    method Erase(action: char, n: nat)
      requires Valid(Now()) && (action == 'J' || action == 'K')
      modifies `cells, `rowSoft, `row, `col
      ensures Now() == ErasedBy(old(Now()), action, n)
    {
      hide Cleared, LineErased;
      RowFits(row, rows, cols);
      var line := Index(row, 0, cols);
      var cur := line + col;
      ClearedAt(cells, 0);
      if action == 'J' {
        if n == 0 {
          ClearRange(cur, |cells|);
        } else if n == 1 {
          ClearRange(0, cur + 1);
        } else if n == 2 || n == 3 {
          ClearRange(0, |cells|);
          rowSoft := seq(rows, i => false);
        }
      } else if n == 2 && afterCarriageReturn {
        ClearLogicalLine();
      } else if n == 0 {
        ClearRange(cur, line + cols);
      } else if n == 1 {
        ClearRange(line, cur + 1);
      } else if n == 2 {
        ClearRange(line, line + cols);
      }
    }

    // ---- Cursor movement ----

    method SoftRowEnd(r: nat) returns (end: nat)
      requires Valid(Now()) && r < rows
      ensures end == RowEnd(Line(Now(), r))
    {
      hide AllWide, TextLength;
      RowFits(r, rows, cols);
      var n := TextEnd(cells[Index(r, 0, cols)..Index(r, 0, cols) + cols]);
      end := if n == 0 then 0 else if n < cols then n + 1 else cols;
    }

    static method TextEnd(line: seq<Cell>) returns (n: nat)
      ensures n == TextLength(line)
    {
      n := |line|;
      assert line[..n] == line;
      while n > 0 && Space(line[n - 1])
        invariant n <= |line| && TextLength(line[..n]) == TextLength(line)
      {
        assert line[..n][..n - 1] == line[..n - 1];
        n := n - 1;
      }
    }

    method MoveLeft(count: nat)
      requires Valid(Now())
      modifies `row, `col
      ensures Now() == MovedLeft(old(Now()), count)
      ensures Offset(Now()) == (if count <= old(Offset(Now())) then old(Offset(Now())) - count else 0)
    {
      hide Valid, Offset, MovedLeft, UpLeft;
      MoveLeftIsExact(Now(), count);
      var left := count;
      while left > 0
        invariant left >= 0 && Valid(Now()) && MovedLeft(Now(), left) == MovedLeft(old(Now()), count)
        decreases row
      {
        RowInside(Now());
        MovedLeftCases(Now(), left);
        if left <= col {
          col := col - left;
          return;
        }
        if row == 0 || !rowSoft[row - 1] {
          col := 0;
          return;
        }
        left := left - col;
        UpLeftIs(Now());
        StepUp();
      }
      MovedLeftCases(Now(), 0);
    }

    /** To the end of the row above. */
    method StepUp()
      requires Valid(Now()) && row > 0
      modifies `row, `col
      ensures Now() == UpLeft(old(Now()))
    {
      hide RowEnd, Line, AllWide, Start;
      var end := SoftRowEnd(row - 1);
      row := row - 1;
      col := end;
    }

    // ---- Control sequences ----

    method CursorClamp()
      requires Shaped(Now())
      modifies `row, `col
      ensures row == Below(old(row), rows) && col == Below(old(col), cols)
    {
      if row >= rows {
        row := rows - 1;
      }
      if col >= cols {
        col := cols - 1;
      }
    }

    method MoveCursor(action: char, params: seq<nat>)
      requires Valid(Now()) && action in "ABCHf"
      modifies `row, `col
      ensures Now() == ScreenModel.Moved(old(Now()), action, params)
    {
      var n := FirstParam(params, 1);
      if action == 'A' {
        row := if n <= row then row - n else 0;
      } else if action == 'B' {
        row := if row + n < rows then row + n else rows - 1;
      } else if action == 'C' {
        col := if col + n < cols then col + n else cols - 1;
      } else {
        var c := AtLeastOne(NthRaw(params, 1));
        row := if n - 1 < rows then n - 1 else rows - 1;
        col := if c - 1 < cols then c - 1 else cols - 1;
      }
    }

    /** Colours and inverse video. */
    method SetStyle(params: seq<nat>)
      modifies `fg, `bg, `inverse
      ensures Now() == Sgr(old(Now()), params)
    {
      hide Styled;
      if params == [] {
        fg, bg, inverse := DEFAULT_FG, DEFAULT_BG, false;
        return;
      }
      var i := 0;
      while i < |params|
        invariant i <= |params| && Now() == StyledAll(old(Now()), params[..i])
      {
        assert params[..i + 1][..i] == params[..i];
        SetCode(params[i]);
        i := i + 1;
      }
      assert params[..i] == params;
    }

    method SetCode(code: nat)
      modifies `fg, `bg, `inverse
      ensures Now() == Styled(old(Now()), code)
    {
      hide AnsiColour;
      if code == 0 {
        fg, bg, inverse := DEFAULT_FG, DEFAULT_BG, false;
      } else if code == 7 {
        inverse := true;
      } else if code == 27 {
        inverse := false;
      } else if 30 <= code <= 37 {
        fg := AnsiColour(code - 30, false);
      } else if code == 39 {
        fg := DEFAULT_FG;
      } else if 40 <= code <= 47 {
        bg := AnsiColour(code - 40, false);
      } else if code == 49 {
        bg := DEFAULT_BG;
      } else if 90 <= code <= 97 {
        fg := AnsiColour(code - 90, true);
      } else if 100 <= code <= 107 {
        bg := AnsiColour(code - 100, true);
      }
    }

    method CsiDispatch(params: seq<nat>, ignore: bool, action: char)
      requires Valid(Now())
      modifies this
      ensures Now() == Dispatched(old(Now()), params, ignore, action)
    {
      hide ScreenModel.Moved, MovedLeft, ErasedBy, Sgr, Start;
      if ignore {
        return;
      }
      StyleIsLocal(Now(), [], params);
      if action in "ABCHf" {
        MoveCursor(action, params);
      } else if action == 'D' {
        MoveLeft(FirstParam(params, 1));
      } else if action == 'J' || action == 'K' {
        Erase(action, NthRaw(params, 0));
      } else if action == 'm' {
        SetStyle(params);
      }
      afterCarriageReturn := false;
      CursorClamp();
    }

    method Receive(call: Call)
      requires Valid(Now())
      modifies this
      ensures Now() == Received(old(Now()), call)
    {
      hide Typed, Executed, Dispatched;
      match call {
        case Print(ch) => Put(ch);
        case Code(code) => Execute(code);
        case Csi(params, ignore, action) => CsiDispatch(params, ignore, action);
      }
    }

    /** Output, as the escape-sequence parser hands it on. */
    method Process(calls: seq<Call>)
      requires Valid(Now())
      modifies this
      ensures Now() == Processed(old(Now()), calls) && old(lost) <= lost
      ensures lost != old(lost) ==> |scrollback| == SCROLLBACK_MAX
      ensures old(AtEnd(Now())) && AllRunning(calls) ==>
                Ink(lost[|old(lost)|..]) + Ink(Visible(Now())) == old(Ink(Visible(Now()))) + Ink(Drawn(old(Now()), calls))
    {
      hide Received, AtEnd, AllRunning, Ink, Visible, Drawn;
      OutputIsFrugal(Now(), calls);
      if AtEnd(Now()) && AllRunning(calls) {
        TextStaysVisible(Now(), calls);
      }
      var i := 0;
      while i < |calls|
        invariant i <= |calls| && Now() == ReceivedAll(old(Now()), calls[..i])
      {
        assert calls[..i + 1][..i] == calls[..i];
        Receive(calls[i]);
        i := i + 1;
      }
      assert calls[..i] == calls;
      viewOff := 0;
    }

    /** The user scrolls through the history; the view stays within it. */
    method ScrollView(delta: int)
      requires Valid(Now())
      modifies `viewOff
      ensures Valid(Now()) && Now() == old(Now()).(viewOff := viewOff)
      ensures 0 <= old(viewOff) + delta <= |scrollback| ==> viewOff == old(viewOff) + delta
      ensures old(viewOff) + delta < 0 ==> viewOff == 0
      ensures old(viewOff) + delta > |scrollback| ==> viewOff == |scrollback|
    {
      var next := viewOff + delta;
      viewOff := if next < 0 then 0 else if next > |scrollback| then |scrollback| else next;
    }

    // ---- Resizing ----

    method LastContentRow() returns (last: nat)
      requires Valid(Now())
      ensures last == LastContent(Now())
    {
      hide Line, Blank;
      last := row;
      var r := 0;
      while r < rows
        invariant r <= rows
        invariant var k := InkedRows(Now(), r); last == if k > row + 1 then k - 1 else row
      {
        var line := RowCopy(r);
        if !Blank(line) {
          if r > last {
            last := r;
          }
        }
        r := r + 1;
      }
    }

    method RowCopy(r: nat) returns (line: seq<Cell>)
      requires Valid(Now()) && r < rows
      ensures line == Line(Now(), r)
    {
      RowFits(r, rows, cols);
      line := cells[Index(r, 0, cols)..Index(r, 0, cols) + cols];
    }

    method CollectPhysical() returns (phys: seq<Row>)
      requires Valid(Now())
      ensures phys == Physical(Now())
    {
      hide Line;
      phys := [];
      var i := 0;
      while i < |scrollback|
        invariant i <= |scrollback| && phys == OldRows(scrollback)[..i]
      {
        var fitted := Resized(scrollback[i].cells, cols);
        assert fitted == scrollback[i].cells;
        phys := phys + [Row(fitted, scrollback[i].soft || Full(fitted))];
        i := i + 1;
      }
      assert OldRows(scrollback)[..i] == OldRows(scrollback);
      var last := LastContentRow();
      var shown := CollectScreen(last);
      phys := phys + shown;
    }

    method CollectScreen(last: nat) returns (shown: seq<Row>)
      requires Valid(Now()) && last < rows
      ensures shown == ScreenRows(Now(), last + 1)
    {
      hide Line;
      shown := [];
      var r := 0;
      while r <= last
        invariant r <= last + 1 && shown == ScreenRows(Now(), last + 1)[..r]
      {
        var line := RowCopy(r);
        shown := shown + [Row(line, rowSoft[r] || (Full(line) && r < last))];
        r := r + 1;
      }
    }

    /** Reflow at another size. */
    method Resize(requestedCols: nat, requestedRows: nat)
      requires Valid(Now())
      modifies this
      ensures Now() == Refitted(old(Now()), AtLeastOne(requestedCols), AtLeastOne(requestedRows))
      ensures old(lost) <= lost && Ink(lost[|old(lost)|..]) + Ink(Visible(Now())) == old(Ink(Visible(Now())))
      ensures lost != old(lost) ==> |scrollback| == SCROLLBACK_MAX
    {
      hide Physical, Reflowed, RowCells, TextLength, SoftOf, Start, Framed, Ink, Visible;
      var newCols, newRows := AtLeastOne(requestedCols), AtLeastOne(requestedRows);
      RefittedIsFrugal(Now(), newCols, newRows);
      if newCols == cols && newRows == rows {
        return;
      }
      var phys := CollectPhysical();
      var wrapped := ReflowRows(phys, newCols);
      ghost var all := wrapped;
      ReflowKeepsInk(phys, newCols);
      KeptIsWide(all, SCROLLBACK_MAX + newRows, newCols);
      wrapped := KeepNewest(wrapped, SCROLLBACK_MAX + newRows);
      Install(wrapped, Dropped(all, SCROLLBACK_MAX + newRows), newCols, newRows);
    }

    static method ReflowRows(phys: seq<Row>, newCols: nat) returns (wrapped: seq<Row>)
      requires newCols > 0
      ensures wrapped == Reflowed(phys, newCols)
    {
      var logical := JoinRows(phys);
      wrapped := RewrapAll(logical, newCols);
    }

    /** Removes rows from the front until at most `limit` are left. */
    static method KeepNewest(rows: seq<Row>, limit: nat) returns (kept: seq<Row>)
      ensures kept == Newest(rows, limit)
    {
      kept := rows;
      ghost var k := 0;
      while |kept| > limit
        invariant 0 <= k <= |rows| && kept == rows[k..] && (k > 0 ==> |kept| >= limit)
      {
        kept := kept[1..];
        k := k + 1;
      }
    }

    /** The last rows go to the screen, those before them to the scrollback, the cursor behind the text. */
    method Install(kept: seq<Row>, ghost gone: seq<Row>, newCols: nat, newRows: nat)
      requires newCols > 0 && newRows > 0 && 0 < |kept| <= SCROLLBACK_MAX + newRows && AllWide(kept, newCols)
      modifies this
      ensures Now() == Framed(old(Now()), kept, gone, newCols, newRows)
    {
      hide RowCells, TextLength, Start, AllWide, SoftOf, Spaces, Valid, Shaped, Below, Framed;
      var screenN := if |kept| < newRows then |kept| else newRows;
      var split := |kept| - screenN;
      WideSuffix(kept, split, newCols);
      FramedParts(Now(), kept, gone, newCols, newRows, screenN);
      var newCells, newSoft, lastCol := LayOut(kept[split..], newCols, newRows);
      Reshape(newCols, newRows, newCells, newSoft, kept[..split]);
      lost := lost + RowCells(gone);
      Home(screenN - 1, Below(lastCol, newCols));
    }

    method Reshape(newCols: nat, newRows: nat, grid: seq<Cell>, soft: seq<bool>, above: seq<Row>)
      modifies `cols, `rows, `cells, `rowSoft, `scrollback
      ensures Now() == old(Now()).(cols := newCols, rows := newRows, cells := grid, soft := soft, scrollback := above)
    {
      cols, rows := newCols, newRows;
      cells, rowSoft, scrollback := grid, soft, above;
    }

    method Home(newRow: nat, newCol: nat)
      modifies `row, `col, `viewOff
      ensures Now() == old(Now()).(row := newRow, col := newCol, viewOff := 0)
    {
      row, col, viewOff := newRow, newCol, 0;
    }

    /** Places rows on an otherwise blank screen. */
    static method LayOut(shown: seq<Row>, width: nat, height: nat)
      returns (grid: seq<Cell>, soft: seq<bool>, lastCol: nat)
      requires 0 < |shown| <= height && AllWide(shown, width)
      ensures Start(|shown|, width) <= Start(height, width)
      ensures grid == RowCells(shown) + Spaces(Start(height, width) - Start(|shown|, width))
      ensures soft == SoftOf(shown, height) && lastCol == TextLength(shown[|shown| - 1].cells)
    {
      hide RowCells, TextLength, Start, Overwritten, Spaces;
      NoInk();
      StartZero(width);
      StartMonotone(|shown|, height, width);
      grid, soft, lastCol := Spaces(Index(height, 0, width)), seq(height, i => false), 0;
      var r := 0;
      while r < |shown|
        invariant r <= |shown| && |soft| == height && Start(r, width) <= Start(height, width)
        invariant |RowCells(shown[..r])| == Start(r, width)
        invariant grid == RowCells(shown[..r]) + Spaces(Start(height, width) - Start(r, width))
        invariant forall k | 0 <= k < height :: soft[k] == (k < r && shown[k].soft)
        invariant r > 0 ==> lastCol == TextLength(shown[r - 1].cells)
      {
        var line := shown[r].cells;
        RowFits(r, height, width);
        PlaceRow(RowCells(shown[..r]), line, Start(height, width) - Start(r, width));
        assert shown[..r + 1] == shown[..r] + [shown[r]];
        RowCellsPush(shown[..r], shown[r]);
        grid := Overwritten(grid, Index(r, 0, width), line);
        soft := soft[r := shown[r].soft];
        lastCol := TextEnd(line);
        r := r + 1;
      }
      assert shown[..r] == shown;
      assert soft == SoftOf(shown, height);
    }
  }

  lemma {:induction false} RowInside(v: View)
    requires Valid(v)
    ensures v.row < |v.soft|
  {
  }

  lemma {:induction false} WideSuffix(rows: seq<Row>, i: nat, width: nat)
    requires i <= |rows| && AllWide(rows, width)
    ensures AllWide(rows[i..], width)
  {
  }

  lemma {:induction false} StartZero(cols: nat)
    ensures Start(0, cols) == 0
  {
  }

  lemma {:induction false} PlaceRow(done: seq<Cell>, line: seq<Cell>, room: nat)
    requires |line| <= room
    ensures Overwritten(done + Spaces(room), |done|, line) == (done + line) + Spaces(room - |line|)
  {
  }

  lemma {:induction false} ClearedAt(c: seq<Cell>, i: nat)
    requires i <= |c|
    ensures Cleared(c, i, i) == c
  {
  }
}
