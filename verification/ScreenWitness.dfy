/** A screen on which erasing up to the cursor takes a cell of the next row along, reached from a blank
    one by a handful of characters. */
module ScreenWitness {

  import opened Reflow
  import opened ScreenModel

  const X: Cell := Cell('X', DEFAULT_FG, DEFAULT_BG)

  /** A letter in the second row, the cursor home, two letters: the cursor rests past the right edge. */
  const DOWN: seq<Call> := [Code(0x0A), Print('X')]
  const HOME: Call := Csi([], false, 'H')
  const ACROSS: seq<Call> := [Print('a'), Print('b')]

  function Crowded(): View { ReceivedAll(Received(ReceivedAll(BlankScreen(2, 2), DOWN), HOME), ACROSS) }

  predicate Small(v: View) { v.cols == 2 && v.rows == 2 && |v.cells| == 4 && Valid(v) }

  lemma {:induction false} FourCells()
    ensures Start(0, 2) == 0 && Start(1, 2) == 2 && Start(2, 2) == 4
  {
    assert Start(1, 2) == Start(0, 2) + 2;
  }

  lemma {:induction false} TwoCalls(v: View, calls: seq<Call>)
    requires Valid(v) && |calls| == 2
    ensures ReceivedAll(v, calls) == Received(Received(v, calls[0]), calls[1])
  {
    hide Received;
    assert calls[..1] == [calls[0]] && [calls[0]][..0] == [];
    assert ReceivedAll(v, calls[..1]) == Received(ReceivedAll(v, []), calls[0]);
  }

  lemma {:induction false} NewlineGoesDown(v: View)
    requires Small(v) && v.row == 0
    ensures var w := Received(v, Code(0x0A));
            && Small(w) && w.row == 1 && w.col == 0 && w.cells == v.cells
            && w.fg == v.fg && w.bg == v.bg && w.inverse == v.inverse
  {
    hide Shaped, Scrolled;
  }

  lemma {:induction false} LetterStruck(v: View, ch: char)
    requires Small(v) && v.col < 2
    ensures var w := Received(v, Print(ch));
            && Small(w) && w.row == v.row && w.col == v.col + 1 && !w.afterCr
            && Cursor(v) == v.row * 2 + v.col && w.cells == v.cells[Cursor(v) := Inked(v, ch)]
  {
    hide Wrapped;
    FourCells();
    assert v.row == 0 || v.row == 1;
  }

  lemma {:induction false} LetterBelow()
    ensures var v := ReceivedAll(BlankScreen(2, 2), DOWN); Small(v) && v.cells[2] == X && v.row == 1
  {
    hide ReceivedAll, Received, Valid;
    FourCells();
    TwoCalls(BlankScreen(2, 2), DOWN);
    NewlineGoesDown(BlankScreen(2, 2));
    LetterStruck(Received(BlankScreen(2, 2), Code(0x0A)), 'X');
  }

  lemma {:induction false} GoesHome(v: View)
    requires Small(v)
    ensures var w := Received(v, HOME); Small(w) && w.cells == v.cells && w.row == 0 && w.col == 0
  {
    hide Shaped;
  }

  lemma {:induction false} FirstRowFilled(v: View)
    requires Small(v) && v.row == 0 && v.col == 0
    ensures var w := ReceivedAll(v, ACROSS);
            Small(w) && w.row == 0 && w.col == 2 && w.cells[2] == v.cells[2] && !w.afterCr
  {
    hide ReceivedAll, Received, Valid;
    TwoCalls(v, ACROSS);
    LetterStruck(v, 'a');
    LetterStruck(Received(v, Print('a')), 'b');
  }

  lemma {:induction false} ErasesThree(v: View, action: char)
    requires Small(v) && v.row == 0 && v.col == 2 && !v.afterCr && (action == 'J' || action == 'K')
    ensures Received(v, Csi([1], false, action)).cells == Cleared(v.cells, 0, 3)
  {
    FourCells();
  }

  /** CSI 1 K and CSI 1 J both erase the letter below. */
  lemma {:induction false} EraseTakesNeighbour(action: char)
    requires action == 'J' || action == 'K'
    ensures var v := Crowded();
            && Small(v) && v.row == 0 && v.cells[2] == X
            && Received(v, Csi([1], false, action)).cells == Cleared(v.cells, 0, 3)
  {
    hide Received, ReceivedAll;
    LetterBelow();
    var v := ReceivedAll(BlankScreen(2, 2), DOWN);
    GoesHome(v);
    FirstRowFilled(Received(v, HOME));
    ErasesThree(Crowded(), action);
  }
}
