/** Reflow of terminal text: how the rows of a screen are joined into logical lines and wrapped
    again at another width. A word is a maximal run of cells that are not spaces. */
module Reflow {

  datatype Colour = Rgb(r: nat, g: nat, b: nat)

  const DEFAULT_FG: Colour := Rgb(0xF0, 0xF0, 0xF0)
  const DEFAULT_BG: Colour := Rgb(0x10, 0x18, 0x20)

  datatype Cell = Cell(ch: char, fg: Colour, bg: Colour)

  const EMPTY: Cell := Cell(' ', DEFAULT_FG, DEFAULT_BG)

  /** A row of cells, and whether it is joined to the row below. */
  datatype Row = Row(cells: seq<Cell>, soft: bool)

  predicate Space(c: Cell) { c.ch == ' ' }

  predicate Blank(s: seq<Cell>) {
    forall i | 0 <= i < |s| :: Space(s[i])
  }

  /** The cells that are not spaces, in order. */
  function Ink(s: seq<Cell>): seq<Cell> {
    if s == [] then [] else (if Space(s[0]) then [] else [s[0]]) + Ink(s[1..])
  }

  /** The length of the run that starts `s` and whose cells are all spaces, or all not. */
  function RunLength(s: seq<Cell>, space: bool): (n: nat)
    ensures n <= |s| && (forall i | 0 <= i < n :: Space(s[i]) == space)
    ensures n < |s| ==> Space(s[n]) != space
  {
    if s != [] && Space(s[0]) == space then RunLength(s[1..], space) + 1 else 0
  }

  function Words(s: seq<Cell>): seq<seq<Cell>>
    decreases |s|
  {
    if s == [] then []
    else if Space(s[0]) then Words(s[1..])
    else
      var n := RunLength(s, false);
      [s[..n]] + Words(s[n..])
  }

  function Concat(ws: seq<seq<Cell>>): seq<Cell> {
    if ws == [] then [] else ws[0] + Concat(ws[1..])
  }

  /** A word cut into pieces of `width`; one piece if it fits. */
  function Pieces(w: seq<Cell>, width: nat): seq<seq<Cell>>
    requires width > 0
    decreases |w|
  {
    if |w| <= width then (if w == [] then [] else [w]) else [w[..width]] + Pieces(w[width..], width)
  }

  function AllPieces(ws: seq<seq<Cell>>, width: nat): seq<seq<Cell>>
    requires width > 0
  {
    if ws == [] then [] else Pieces(ws[0], width) + AllPieces(ws[1..], width)
  }

  /** The words of each row, row after row: a word never continues across a row boundary. */
  function RowWords(rows: seq<Row>): seq<seq<Cell>> {
    if rows == [] then [] else RowWords(rows[..|rows| - 1]) + Words(rows[|rows| - 1].cells)
  }

  function RowCells(rows: seq<Row>): seq<Cell> {
    if rows == [] then [] else RowCells(rows[..|rows| - 1]) + rows[|rows| - 1].cells
  }

  // ---- Ink ----

  lemma {:induction false} InkConcat(a: seq<Cell>, b: seq<Cell>)
    ensures Ink(a + b) == Ink(a) + Ink(b)
  {
    if a == [] {
      assert a + b == b;
    } else {
      assert (a + b)[1..] == a[1..] + b;
      InkConcat(a[1..], b);
    }
  }

  lemma {:induction false} InkOfBlank(s: seq<Cell>)
    requires Blank(s)
    ensures Ink(s) == []
  {
    if s != [] {
      InkOfBlank(s[1..]);
    }
  }

  lemma {:induction false} InkOfWord(s: seq<Cell>)
    requires forall i | 0 <= i < |s| :: !Space(s[i])
    ensures Ink(s) == s
  {
    if s != [] {
      InkOfWord(s[1..]);
    }
  }

  /** The ink of a text is its words, one after the other. */
  lemma {:induction false} InkIsWords(s: seq<Cell>)
    ensures Ink(s) == Concat(Words(s))
    decreases |s|
  {
    if s != [] {
      if Space(s[0]) {
        InkIsWords(s[1..]);
      } else {
        var n := RunLength(s, false);
        InkIsWords(s[n..]);
        InkOfWord(s[..n]);
        InkConcat(s[..n], s[n..]);
        assert s == s[..n] + s[n..];
      }
    }
  }

  // ---- Words ----

  /** Two texts may be put side by side without running words together. */
  predicate Joinable(a: seq<Cell>, b: seq<Cell>) {
    a == [] || b == [] || Space(a[|a| - 1]) || Space(b[0])
  }

  lemma {:induction false} RunOfConcat(a: seq<Cell>, b: seq<Cell>)
    requires a != [] && !Space(a[0]) && Joinable(a, b)
    ensures RunLength(a + b, false) == RunLength(a, false)
    decreases |a|
  {
    assert (a + b)[1..] == a[1..] + b;
    if |a| == 1 {
      assert a[1..] + b == b;
    } else if !Space(a[1]) {
      RunOfConcat(a[1..], b);
    }
  }

  lemma {:induction false} WordsConcat(a: seq<Cell>, b: seq<Cell>)
    requires Joinable(a, b)
    ensures Words(a + b) == Words(a) + Words(b)
    decreases |a|
  {
    if a == [] {
      assert a + b == b;
    } else if Space(a[0]) {
      assert (a + b)[1..] == a[1..] + b;
      WordsConcat(a[1..], b);
    } else {
      RunOfConcat(a, b);
      var n := RunLength(a, false);
      assert (a + b)[..n] == a[..n] && (a + b)[n..] == a[n..] + b;
      WordsConcat(a[n..], b);
    }
  }

  lemma {:induction false} WordsOfBlank(s: seq<Cell>)
    requires Blank(s)
    ensures Words(s) == []
  {
    if s != [] {
      WordsOfBlank(s[1..]);
    }
  }

  lemma {:induction false} WordsOfWord(w: seq<Cell>)
    requires w != [] && forall i | 0 <= i < |w| :: !Space(w[i])
    ensures Words(w) == [w]
  {
    var n := RunLength(w, false);
    assert w[..n] == w && w[n..] == [];
  }

  lemma {:induction false} RowWordsPush(rows: seq<Row>, r: Row)
    ensures RowWords(rows + [r]) == RowWords(rows) + Words(r.cells)
  {
    assert (rows + [r])[..|rows|] == rows;
  }

  // ---- Trimming and padding ----

  /** Length of a text without its trailing spaces. */
  function TextLength(cells: seq<Cell>): (n: nat)
    ensures n <= |cells| && Blank(cells[n..]) && (n > 0 ==> !Space(cells[n - 1]))
    decreases |cells|
  {
    if cells == [] then 0
    else if Space(cells[|cells| - 1]) then
      var n := TextLength(cells[..|cells| - 1]);
      assert cells[n..] == cells[..|cells| - 1][n..] + [cells[|cells| - 1]];
      n
    else |cells|
  }

  function Trim(line: seq<Cell>): seq<Cell> { line[..TextLength(line)] }

  lemma {:induction false} TrimKeeps(line: seq<Cell>)
    ensures Ink(Trim(line)) == Ink(line) && Words(Trim(line)) == Words(line)
  {
    var end := TextLength(line);
    InkOfBlank(line[end..]);
    InkConcat(line[..end], line[end..]);
    WordsOfBlank(line[end..]);
    WordsConcat(line[..end], line[end..]);
    assert line == line[..end] + line[end..];
  }

  /** Drops exactly the trailing spaces. */
  method TrimCells(line: seq<Cell>) returns (r: seq<Cell>)
    ensures r == Trim(line)
  {
    var end := |line|;
    assert line[..end] == line;
    while end > 0 && line[end - 1].ch == ' '
      invariant 0 <= end <= |line| && TextLength(line[..end]) == TextLength(line)
    {
      assert line[..end][..end - 1] == line[..end - 1];
      end := end - 1;
    }
    assert end > 0 ==> line[..end][end - 1] == line[end - 1];
    r := line[..end];
  }

  function Spaces(n: nat): (s: seq<Cell>)
    ensures |s| == n && Blank(s)
  {
    seq(n, i => EMPTY)
  }

  /** `Vec::resize` with empty cells. */
  function Resized(row: seq<Cell>, width: nat): (r: seq<Cell>)
    ensures |r| == width
  {
    if |row| <= width then row + Spaces(width - |row|) else row[..width]
  }

  lemma {:induction false} WordsOfPadded(row: seq<Cell>, width: nat)
    requires |row| <= width
    ensures Words(Resized(row, width)) == Words(row)
  {
    var pad := Spaces(width - |row|);
    WordsConcat(row, pad);
    WordsOfBlank(pad);
  }

  // ---- Wrapping ----

  predicate AllWide(rows: seq<Row>, width: nat) {
    forall k | 0 <= k < |rows| :: |rows[k].cells| == width
  }

  /** Every row is joined to the next, except perhaps the one just before a blank end. */
  predicate Joined(rows: seq<Row>, done: bool) {
    forall k | 0 <= k < |rows| :: rows[k].soft || (done && k == |rows| - 1)
  }

  method ScanRun(src: seq<Cell>, start: nat) returns (i: nat)
    requires start < |src|
    ensures start < i <= |src| && i == start + RunLength(src[start..], Space(src[start]))
  {
    var space := Space(src[start]);
    i := start;
    while i < |src| && Space(src[i]) == space
      invariant start <= i <= |src|
      invariant start + RunLength(src[start..], space) == i + RunLength(src[i..], space)
      invariant i == start ==> i < |src|
    {
      assert src[i..][1..] == src[i + 1..];
      i := i + 1;
    }
  }

  lemma {:induction false} SkipSpaces(src: seq<Cell>, i: nat, j: nat)
    requires i < |src| && Space(src[i]) && j == i + RunLength(src[i..], true)
    ensures Blank(src[i..j]) && Words(src[i..]) == Words(src[j..])
  {
    var tok := src[i..j];
    assert forall k | 0 <= k < |tok| :: tok[k] == src[i..][k];
    assert src[i..] == tok + src[j..] && Space(tok[|tok| - 1]);
    WordsConcat(tok, src[j..]);
    WordsOfBlank(tok);
  }

  lemma {:induction false} TakeWord(src: seq<Cell>, i: nat, j: nat, width: nat)
    requires width > 0 && i < |src| && !Space(src[i]) && j == i + RunLength(src[i..], false)
    ensures var tok := src[i..j];
            && tok != [] && (forall k | 0 <= k < |tok| :: !Space(tok[k])) && Words(tok) == [tok]
            && AllPieces(Words(src[i..]), width) == Pieces(tok, width) + AllPieces(Words(src[j..]), width)
            && (j < |src| ==> Space(src[j]))
  {
    var s, tok := src[i..], src[i..j];
    assert s[..j - i] == tok && s[j - i..] == src[j..];
    assert forall k | 0 <= k < |tok| :: tok[k] == s[k];
    WordsOfWord(tok);
    assert Words(s) == [tok] + Words(src[j..]);
    assert j < |src| ==> s[j - i] == src[j];
  }

  /** The rows that a word longer than the width fills, and what is left of it. The last row is joined
      to the next unless the line ends with it. */
  function FullRows(tok: seq<Cell>, width: nat, last: bool): seq<Row>
    requires width > 0
    decreases |tok|
  {
    if |tok| < width then []
    else [Row(tok[..width], |tok| > width || !last)] + FullRows(tok[width..], width, last)
  }

  function Tail(tok: seq<Cell>, width: nat): (r: seq<Cell>)
    requires width > 0
    ensures |r| < width
    decreases |tok|
  {
    if |tok| < width then tok else Tail(tok[width..], width)
  }

  /** A word too long for any row fills rows of its own. */
  method ChopWord(tok: seq<Cell>, width: nat, out: seq<Row>, last: bool) returns (out': seq<Row>, row: seq<Cell>)
    requires width > 0
    ensures out' == out + FullRows(tok, width, last) && row == Tail(tok, width)
  {
    hide FullRows, Tail;
    ChopNothing(width, last);
    var t := 0;
    out', row := out, [];
    assert tok[0..] == tok && out + [] == out;
    while t < |tok|
      invariant t <= |tok| && |row| < width && (t < |tok| ==> row == [])
      invariant t < |tok| ==> out' + FullRows(tok[t..], width, last) == out + FullRows(tok, width, last)
      invariant t < |tok| ==> Tail(tok[t..], width) == Tail(tok, width)
      invariant t == |tok| ==> out' == out + FullRows(tok, width, last) && row == Tail(tok, width)
    {
      ghost var rest := tok[t..];
      var room := width - |row|;
      var take := if room <= |tok| - t then room else |tok| - t;
      row := row + tok[t..t + take];
      assert row == rest[..take] && tok[t + take..] == rest[take..];
      ChopNext(rest, width, last);
      t := t + take;
      if |row| == width {
        assert Resized(row, width) == row;
        Prefixed(out', [Row(row, t < |tok| || !last)], FullRows(rest[take..], width, last));
        out' := out' + [Row(Resized(row, width), t < |tok| || !last)];
        row := [];
      }
    }
  }

  lemma {:induction false} ChopNothing(width: nat, last: bool)
    requires width > 0
    ensures FullRows([], width, last) == [] && Tail([], width) == []
  {
  }

  lemma {:induction false} ChopNext(tok: seq<Cell>, width: nat, last: bool)
    requires width > 0
    ensures |tok| < width ==> FullRows(tok, width, last) == [] && Tail(tok, width) == tok
    ensures |tok| >= width ==>
              && FullRows(tok, width, last) == [Row(tok[..width], |tok| > width || !last)] + FullRows(tok[width..], width, last)
              && Tail(tok, width) == Tail(tok[width..], width)
  {
  }

  /** Row by row the words are the pieces of the word. */
  lemma {:induction false} ChopKeeps(tok: seq<Cell>, width: nat, out: seq<Row>, last: bool)
    requires width > 0 && tok != [] && (forall k | 0 <= k < |tok| :: !Space(tok[k]))
    requires AllWide(out, width) && Joined(out, false)
    ensures var all, row := out + FullRows(tok, width, last), Tail(tok, width);
            && RowWords(all) + Words(row) == RowWords(out) + Pieces(tok, width)
            && AllWide(all, width) && Joined(all, last && row == [])
            && (row != [] ==> !Space(row[|row| - 1]))
    decreases |tok|
  {
    hide Words, Pieces, RowWords;
    NoWords(width);
    if |tok| < width {
      ChopPiece(tok, 0, |tok|, width, tok);
      assert tok[0..] == tok && tok[|tok|..] == [] && out + [] == out;
    } else {
      var piece, rest := tok[..width], tok[width..];
      var r := Row(piece, |tok| > width || !last);
      assert tok[0..] == tok && tok[0..width] == piece;
      ChopPiece(tok, 0, width, width, piece);
      RowWordsPush(out, r);
      assert out + FullRows(tok, width, last) == (out + [r]) + FullRows(rest, width, last);
      if rest == [] {
        assert FullRows(rest, width, last) == [] && Tail(rest, width) == [] && (out + [r]) + [] == out + [r];
      } else {
        ChopKeeps(rest, width, out + [r], last);
      }
    }
  }

  lemma {:induction false} NoWords(width: nat)
    requires width > 0
    ensures Words([]) == [] && Pieces([], width) == []
  {
  }

  lemma {:induction false} ChopPiece(tok: seq<Cell>, t: nat, take: nat, width: nat, row: seq<Cell>)
    requires t < |tok| && width > 0 && take == (if width <= |tok| - t then width else |tok| - t)
    requires (forall k | 0 <= k < |tok| :: !Space(tok[k])) && row == tok[t..t + take]
    ensures Words(row) == [row] && Pieces(tok[t..], width) == [row] + Pieces(tok[t + take..], width)
    ensures |row| == take > 0 && !Space(row[take - 1]) && (take == width ==> Resized(row, width) == row)
  {
    var rest := tok[t..];
    assert row == rest[..take] && tok[t + take..] == rest[take..];
    WordsOfWord(row);
    PiecesStep(rest, width);
  }

  lemma {:induction false} PiecesStep(w: seq<Cell>, width: nat)
    requires width > 0 && w != []
    ensures var n := if width <= |w| then width else |w|;
            Pieces(w, width) == [w[..n]] + Pieces(w[n..], width)
  {
    if |w| <= width {
      assert w[..|w|] == w && w[|w|..] == [];
    }
  }

  function AtLeastOne(n: nat): nat { if n == 0 then 1 else n }

  /** Words so far, those in the unfinished row, and those still to come: together always all. */
  ghost predicate Progress(src: seq<Cell>, width: nat, out: seq<Row>, row: seq<Cell>, i: nat)
    requires width > 0 && i <= |src|
  {
    && RowWords(out) + Words(row) + AllPieces(Words(src[i..]), width) == AllPieces(Words(src), width)
    && AllWide(out, width) && |row| <= width && Joinable(row, src[i..])
    && Joined(out, i == |src| && row == [])
  }

  /** Closing the unfinished row early. */
  lemma {:induction false} CloseRow(src: seq<Cell>, width: nat, out: seq<Row>, row: seq<Cell>, i: nat)
    requires width > 0 && i < |src| && Progress(src, width, out, row, i)
    ensures Progress(src, width, out + [Row(Resized(row, width), true)], [], i)
  {
    hide Words, AllPieces, RowWords;
    var r := Row(Resized(row, width), true);
    RowWordsPush(out, r);
    WordsOfPadded(row, width);
    NoWords(width);
    var a, b, c := RowWords(out), Words(row), AllPieces(Words(src[i..]), width);
    assert (a + b) + [] + c == a + b + c;
  }

  lemma {:induction false} SpacesStep(src: seq<Cell>, width: nat, out: seq<Row>, row: seq<Cell>, i: nat, j: nat)
    requires width > 0 && i < |src| && Progress(src, width, out, row, i)
    requires Space(src[i]) && j == i + RunLength(src[i..], true)
    ensures row == [] ==> Progress(src, width, out, [], j)
    ensures row != [] && |row| + (j - i) <= width ==> Progress(src, width, out, row + src[i..j], j)
    ensures row != [] ==> Progress(src, width, out + [Row(Resized(row, width), true)], [], j)
  {
    hide Words, AllPieces, RowWords;
    SkipSpaces(src, i, j);
    var tok := src[i..j];
    WordsConcat(row, tok);
    WordsOfBlank(tok);
    assert Words(row) + [] == Words(row);
    CloseRow(src, width, out, row, i);
  }

  lemma {:induction false} WordStep(src: seq<Cell>, width: nat, out: seq<Row>, row: seq<Cell>, i: nat, j: nat)
    requires width > 0 && i < |src| && Progress(src, width, out, row, i)
    requires !Space(src[i]) && j == i + RunLength(src[i..], false) && |row| + (j - i) <= width
    ensures Progress(src, width, out, row + src[i..j], j)
  {
    hide Words, AllPieces, RowWords;
    TakeWord(src, i, j, width);
    var tok := src[i..j];
    WordsConcat(row, tok);
    assert Pieces(tok, width) == [tok];
    var a, b, c := RowWords(out), Words(row), AllPieces(Words(src[j..]), width);
    assert a + (b + [tok]) + c == a + b + ([tok] + c);
  }

  /** `rows` is the line `src` wrapped at `width`: every row is exactly that wide, only the last is not
      joined to the next (or the last two, when an over-long word fills its last row exactly), and row
      by row the words are those of the line. Only a word longer than a row is ever cut. */
  predicate Wraps(src: seq<Cell>, width: nat, rows: seq<Row>)
    requires width > 0
  {
    && rows != [] && AllWide(rows, width) && RowWords(rows) == AllPieces(Words(src), width)
    && !rows[|rows| - 1].soft && Joined(rows[..|rows| - 1], Blank(rows[|rows| - 1].cells))
  }

  function Close(row: seq<Cell>, width: nat): Row { Row(Resized(row, width), true) }

  /** The rows still to come, with `row` unfinished: spaces go with the row or, at its end, away; a word
      goes whole to the next row unless it is longer than any. */
  function WrapFrom(src: seq<Cell>, row: seq<Cell>, width: nat): seq<Row>
    requires width > 0
    decreases |src|, |row|
  {
    if src == [] then [Row(Resized(row, width), false)]
    else
      var n := RunLength(src, Space(src[0]));
      var tok, rest := src[..n], src[n..];
      if Space(src[0]) then
        if row == [] then WrapFrom(rest, [], width)
        else if |row| + n <= width then WrapFrom(rest, row + tok, width)
        else [Close(row, width)] + WrapFrom(rest, [], width)
      else if row != [] && |row| + n > width then [Close(row, width)] + WrapFrom(src, [], width)
      else if n > width then FullRows(tok, width, rest == []) + WrapFrom(rest, Tail(tok, width), width)
      else WrapFrom(rest, row + tok, width)
  }

  function WrapRows(src: seq<Cell>, width: nat): seq<Row>
    requires width > 0
  {
    WrapFrom(src, [], width)
  }

  lemma {:induction false} WrapSpaces(src: seq<Cell>, i: nat, j: nat, row: seq<Cell>, width: nat)
    requires width > 0 && i < |src| && Space(src[i]) && j == i + RunLength(src[i..], true)
    ensures WrapFrom(src[i..], row, width) ==
              if row == [] then WrapFrom(src[j..], [], width)
              else if |row| + (j - i) <= width then WrapFrom(src[j..], row + src[i..j], width)
              else [Close(row, width)] + WrapFrom(src[j..], [], width)
  {
    hide FullRows, Tail, Close;
    assert src[i..][j - i..] == src[j..] && src[i..][..j - i] == src[i..j];
  }

  lemma {:induction false} WrapWord(src: seq<Cell>, i: nat, j: nat, row: seq<Cell>, width: nat)
    requires width > 0 && i < |src| && !Space(src[i]) && j == i + RunLength(src[i..], false)
    requires row == [] || |row| + (j - i) <= width
    ensures WrapFrom(src[i..], row, width) ==
              if j - i > width then FullRows(src[i..j], width, j == |src|) + WrapFrom(src[j..], Tail(src[i..j], width), width)
              else WrapFrom(src[j..], row + src[i..j], width)
  {
    hide FullRows, Tail;
    assert src[i..][j - i..] == src[j..] && src[i..][..j - i] == src[i..j];
    assert src[j..] == [] <==> j == |src|;
  }

  /** A row closed early leaves the rest to a fresh one. */
  lemma {:induction false} WrapEarly(src: seq<Cell>, row: seq<Cell>, width: nat)
    requires width > 0 && src != [] && !Space(src[0]) && row != [] && |row| + RunLength(src, false) > width
    ensures WrapFrom(src, row, width) == [Close(row, width)] + WrapFrom(src, [], width)
  {
    hide FullRows, Tail;
  }

  /** Whatever is already wrapped, the rest completes it to a wrapping of the whole line. */
  lemma {:induction false} WrapFromWraps(src: seq<Cell>, width: nat, out: seq<Row>, row: seq<Cell>, i: nat)
    requires width > 0 && i <= |src| && Progress(src, width, out, row, i)
    ensures Wraps(src, width, out + WrapFrom(src[i..], row, width))
    decreases |src| - i
  {
    hide Words, AllPieces, RowWords, Pieces, Wraps, WrapFrom, Progress;
    if i == |src| {
      Completed(src, width, out, row);
    } else {
      var j := i + RunLength(src[i..], Space(src[i]));
      if Space(src[i]) {
        SpacesStep(src, width, out, row, i, j);
        WrapSpaces(src, i, j, row, width);
        if row == [] {
          WrapFromWraps(src, width, out, [], j);
        } else if |row| + (j - i) <= width {
          WrapFromWraps(src, width, out, row + src[i..j], j);
        } else {
          WrapFromWraps(src, width, out + [Close(row, width)], [], j);
          Prefixed(out, [Close(row, width)], WrapFrom(src[j..], [], width));
        }
      } else if row != [] && |row| + (j - i) > width {
        CloseRow(src, width, out, row, i);
        WrapEarly(src[i..], row, width);
        WordWraps(src, width, out + [Close(row, width)], [], i, j);
        Prefixed(out, [Close(row, width)], WrapFrom(src[i..], [], width));
      } else {
        WordWraps(src, width, out, row, i, j);
      }
    }
  }

  lemma {:induction false} WordWraps(src: seq<Cell>, width: nat, out: seq<Row>, row: seq<Cell>, i: nat, j: nat)
    requires width > 0 && i < |src| && Progress(src, width, out, row, i) && !Space(src[i])
    requires j == i + RunLength(src[i..], false) && (row == [] || |row| + (j - i) <= width)
    ensures Wraps(src, width, out + WrapFrom(src[i..], row, width))
    decreases |src| - i, 0
  {
    hide Words, AllPieces, RowWords, Pieces, Wraps, WrapFrom;
    var tok := src[i..j];
    TakeWord(src, i, j, width);
    WrapWord(src, i, j, row, width);
    if |tok| > width {
      ChopKeeps(tok, width, out, j == |src|);
      var all := out + FullRows(tok, width, j == |src|);
      Chopped(src, width, out, all, Tail(tok, width), i, j);
      WrapFromWraps(src, width, all, Tail(tok, width), j);
      Prefixed(out, FullRows(tok, width, j == |src|), WrapFrom(src[j..], Tail(tok, width), width));
    } else {
      WordStep(src, width, out, row, i, j);
      WrapFromWraps(src, width, out, row + tok, j);
    }
  }

  lemma {:induction false} Prefixed(a: seq<Row>, b: seq<Row>, c: seq<Row>)
    ensures a + (b + c) == (a + b) + c
  {
  }

  lemma {:induction false} NothingBefore(rows: seq<Row>)
    ensures [] + rows == rows
  {
  }

  lemma {:induction false} Completed(src: seq<Cell>, width: nat, out: seq<Row>, row: seq<Cell>)
    requires width > 0 && Progress(src, width, out, row, |src|)
    ensures Wraps(src, width, out + WrapFrom(src[|src|..], row, width))
  {
    hide Words, AllPieces, RowWords, Pieces;
    assert src[|src|..] == [];
    NoWords(width);
    NoRows(width);
    var r := Row(Resized(row, width), false);
    RowWordsPush(out, r);
    WordsOfPadded(row, width);
    assert (out + [r])[..|out|] == out;
    assert RowWords(out) + Words(row) + [] == RowWords(out) + Words(row);
  }

  /** Every wrapping is one: exact width, joined rows, and no word cut that fits a row. */
  lemma {:induction false} WrapRowsWraps(src: seq<Cell>, width: nat)
    requires width > 0
    ensures Wraps(src, width, WrapRows(src, width))
  {
    hide Words, AllPieces, RowWords, Pieces, Wraps, WrapFrom;
    NoWords(width);
    NoRows(width);
    assert src[0..] == src;
    NothingBefore(WrapRows(src, width));
    assert [] + [] + AllPieces(Words(src), width) == AllPieces(Words(src), width);
    WrapFromWraps(src, width, [], [], 0);
  }

  /** Wraps one logical line. */
  method WrapWords(src: seq<Cell>, requested: nat) returns (out: seq<Row>)
    ensures out == WrapRows(src, AtLeastOne(requested))
  {
    hide FullRows, Tail, WrapFrom;
    var width := AtLeastOne(requested);
    out := [];
    if src == [] {
      WrapNothing([], width);
      assert Resized([], width) == Spaces(width);
      return [Row(Spaces(width), false)];
    }
    var row: seq<Cell>, i := [], 0;
    assert src[0..] == src;
    NothingBefore(WrapRows(src, width));
    while i < |src|
      invariant i <= |src| && out + WrapFrom(src[i..], row, width) == WrapRows(src, width)
    {
      var start := i;
      i := ScanRun(src, start);
      var tok := src[start..i];
      if Space(src[start]) {
        WrapSpaces(src, start, i, row, width);
        if row == [] {
          continue;
        }
        if |row| + |tok| <= width {
          row := row + tok;
        } else {
          Prefixed(out, [Close(row, width)], WrapFrom(src[i..], [], width));
          out, row := out + [Row(Resized(row, width), true)], [];
        }
        continue;
      }
      if row != [] && |row| + |tok| > width {
        WrapEarly(src[start..], row, width);
        Prefixed(out, [Close(row, width)], WrapFrom(src[start..], [], width));
        out, row := out + [Row(Resized(row, width), true)], [];
      }
      WrapWord(src, start, i, row, width);
      if |tok| > width {
        Prefixed(out, FullRows(tok, width, i == |src|), WrapFrom(src[i..], Tail(tok, width), width));
        out, row := ChopWord(tok, width, out, i == |src|);
      } else {
        row := row + tok;
      }
    }
    assert src[i..] == [];
    WrapNothing(row, width);
    out := out + [Row(Resized(row, width), false)];
  }

  lemma {:induction false} WrapNothing(row: seq<Cell>, width: nat)
    requires width > 0
    ensures WrapFrom([], row, width) == [Row(Resized(row, width), false)]
  {
  }

  lemma {:induction false} NoRows(width: nat)
    requires width > 0
    ensures RowWords([]) == [] && AllPieces([], width) == [] && AllPieces(Words([]), width) == []
  {
  }

  lemma {:induction false} Regroup(a: seq<seq<Cell>>, b: seq<seq<Cell>>, c: seq<seq<Cell>>)
    ensures a + b + c == a + [] + (b + c)
  {
  }

  lemma {:induction false} Chopped(src: seq<Cell>, width: nat, before: seq<Row>, out: seq<Row>, row: seq<Cell>, i: nat, j: nat)
    requires width > 0 && i < j <= |src| && Progress(src, width, before, [], i)
    requires AllPieces(Words(src[i..]), width) == Pieces(src[i..j], width) + AllPieces(Words(src[j..]), width)
    requires RowWords(out) + Words(row) == RowWords(before) + Pieces(src[i..j], width)
    requires |row| < width && AllWide(out, width) && Joined(out, j == |src| && row == [])
    requires j < |src| ==> Space(src[j])
    ensures Progress(src, width, out, row, j)
  {
    hide Words, AllPieces, RowWords, Pieces;
    NoWords(width);
    Regroup(RowWords(before), Pieces(src[i..j], width), AllPieces(Words(src[j..]), width));
  }

  // ---- From rows to logical lines and back ----

  lemma {:induction false} RowCellsPush(rows: seq<Row>, r: Row)
    ensures RowCells(rows + [r]) == RowCells(rows) + r.cells
  {
    assert (rows + [r])[..|rows|] == rows;
  }

  lemma {:induction false} RowCellsConcat(a: seq<Row>, b: seq<Row>)
    ensures RowCells(a + b) == RowCells(a) + RowCells(b)
    decreases |b|
  {
    if b == [] {
      assert a + b == a;
    } else {
      hide RowCells;
      var n := |b| - 1;
      assert a + b == (a + b[..n]) + [b[n]] && b == b[..n] + [b[n]];
      RowCellsConcat(a, b[..n]);
      RowCellsPush(a + b[..n], b[n]);
      RowCellsPush(b[..n], b[n]);
    }
  }

  lemma {:induction false} ConcatPush(ws: seq<seq<Cell>>, w: seq<Cell>)
    ensures Concat(ws + [w]) == Concat(ws) + w
  {
    if ws == [] {
      assert [w][1..] == [] && w + [] == w;
    } else {
      assert (ws + [w])[1..] == ws[1..] + [w];
      ConcatPush(ws[1..], w);
    }
  }

  lemma {:induction false} ConcatConcat(a: seq<seq<Cell>>, b: seq<seq<Cell>>)
    ensures Concat(a + b) == Concat(a) + Concat(b)
  {
    if a == [] {
      assert a + b == b;
    } else {
      assert (a + b)[1..] == a[1..] + b;
      ConcatConcat(a[1..], b);
    }
  }

  lemma {:induction false} ConcatPieces(w: seq<Cell>, width: nat)
    requires width > 0
    ensures Concat(Pieces(w, width)) == w
    decreases |w|
  {
    if |w| > width {
      ConcatPieces(w[width..], width);
      assert Pieces(w, width)[1..] == Pieces(w[width..], width);
      assert w == w[..width] + w[width..];
    } else if w != [] {
      assert [w][1..] == [] && w + [] == w;
    }
  }

  lemma {:induction false} ConcatAllPieces(ws: seq<seq<Cell>>, width: nat)
    requires width > 0
    ensures Concat(AllPieces(ws, width)) == Concat(ws)
  {
    if ws != [] {
      ConcatConcat(Pieces(ws[0], width), AllPieces(ws[1..], width));
      ConcatPieces(ws[0], width);
      ConcatAllPieces(ws[1..], width);
    }
  }

  lemma {:induction false} InkOfRows(rows: seq<Row>)
    ensures Ink(RowCells(rows)) == Concat(RowWords(rows))
    decreases |rows|
  {
    if rows != [] {
      var n := |rows| - 1;
      InkOfRows(rows[..n]);
      InkConcat(RowCells(rows[..n]), rows[n].cells);
      InkIsWords(rows[n].cells);
      ConcatConcat(RowWords(rows[..n]), Words(rows[n].cells));
    }
  }

  /** Wrapping keeps the ink, whatever the width. */
  lemma {:induction false} WrappedInk(rows: seq<Row>, src: seq<Cell>, width: nat)
    requires width > 0 && RowWords(rows) == AllPieces(Words(src), width)
    ensures Ink(RowCells(rows)) == Ink(src)
  {
    InkOfRows(rows);
    ConcatAllPieces(Words(src), width);
    InkIsWords(src);
  }

  /** The words of the paragraphs that the rows complete: a hard row ends a paragraph. */
  function Closed(rows: seq<Row>): seq<seq<seq<Cell>>> {
    if rows == [] then []
    else
      var r, p := rows[|rows| - 1], rows[..|rows| - 1];
      if r.soft then Closed(p) else Closed(p) + [Open(p) + Words(r.cells)]
  }

  /** The words of the paragraph still open after the rows. */
  function Open(rows: seq<Row>): seq<seq<Cell>> {
    if rows == [] then []
    else
      var r, p := rows[|rows| - 1], rows[..|rows| - 1];
      if r.soft then Open(p) + Words(r.cells) else []
  }

  function LineWords(lines: seq<seq<Cell>>): seq<seq<seq<Cell>>> {
    seq(|lines|, i requires 0 <= i < |lines| => Words(lines[i]))
  }

  lemma {:induction false} ParagraphStep(rows: seq<Row>, r: Row)
    ensures Closed(rows + [r]) == if r.soft then Closed(rows) else Closed(rows) + [Open(rows) + Words(r.cells)]
    ensures Open(rows + [r]) == if r.soft then Open(rows) + Words(r.cells) else []
  {
    assert (rows + [r])[..|rows|] == rows;
  }

  lemma {:induction false} LineWordsPush(lines: seq<seq<Cell>>, line: seq<Cell>)
    ensures LineWords(lines + [line]) == LineWords(lines) + [Words(line)]
  {
  }

  /** A soft row is followed by a space, so that its last word stays apart from the next row's first. */
  function Spaced(acc: seq<Cell>): seq<Cell> {
    if acc != [] && !Space(acc[|acc| - 1]) then acc + [EMPTY] else acc
  }

  /** The lines still to come, with `acc` under way. */
  function JoinFrom(rows: seq<Row>, acc: seq<Cell>): seq<seq<Cell>>
    decreases |rows|
  {
    if rows == [] then (if acc == [] then [] else [acc])
    else
      var line := acc + Trim(rows[0].cells);
      if rows[0].soft then JoinFrom(rows[1..], Spaced(line)) else [line] + JoinFrom(rows[1..], [])
  }

  /** The logical lines of the rows: soft rows joined, and at least one line. */
  function Logical(rows: seq<Row>): seq<seq<Cell>> {
    var lines := JoinFrom(rows, []);
    if lines == [] then [[]] else lines
  }

  lemma {:induction false} JoinNext(rows: seq<Row>, i: nat, acc: seq<Cell>)
    requires i < |rows|
    ensures JoinFrom(rows[i..], acc) ==
              var line := acc + Trim(rows[i].cells);
              if rows[i].soft then JoinFrom(rows[i + 1..], Spaced(line)) else [line] + JoinFrom(rows[i + 1..], [])
  {
    assert rows[i..][1..] == rows[i + 1..];
  }

  lemma {:induction false} Grouped(a: seq<seq<Cell>>, line: seq<Cell>, b: seq<seq<Cell>>)
    ensures a + ([line] + b) == (a + [line]) + b
  {
  }

  method JoinRows(phys: seq<Row>) returns (logical: seq<seq<Cell>>)
    ensures logical == Logical(phys)
  {
    hide JoinFrom, Trim;
    logical := [];
    var acc: seq<Cell>, i := [], 0;
    assert phys[0..] == phys && [] + JoinFrom(phys, []) == JoinFrom(phys, []);
    while i < |phys|
      invariant i <= |phys| && logical + JoinFrom(phys[i..], acc) == JoinFrom(phys, [])
    {
      var trimmed := TrimCells(phys[i].cells);
      JoinNext(phys, i, acc);
      acc := acc + trimmed;
      if !phys[i].soft {
        Grouped(logical, acc, JoinFrom(phys[i + 1..], []));
        logical, acc := logical + [acc], [];
      } else if acc != [] && !Space(acc[|acc| - 1]) {
        acc := acc + [EMPTY];
      }
      i := i + 1;
    }
    assert phys[i..] == [];
    JoinNothing(acc);
    if acc != [] {
      logical := logical + [acc];
    }
    if logical == [] {
      logical := [[]];
    }
  }

  lemma {:induction false} JoinNothing(acc: seq<Cell>)
    ensures JoinFrom([], acc) == if acc == [] then [] else [acc]
  {
  }

  /** One line for each paragraph, with the words of its rows in order, and all the ink. */
  ghost predicate Joins(lines: seq<seq<Cell>>, rows: seq<Row>) {
    && (LineWords(lines) == Closed(rows) || LineWords(lines) == Closed(rows) + [Open(rows)])
    && (Open(rows) != [] ==> LineWords(lines) == Closed(rows) + [Open(rows)])
    && Ink(Concat(lines)) == Ink(RowCells(rows))
  }

  lemma {:induction false} JoinFromJoins(logical: seq<seq<Cell>>, acc: seq<Cell>, before: seq<Row>, rows: seq<Row>)
    requires Collected(logical, acc, before) && (acc == [] || Space(acc[|acc| - 1]))
    ensures Joins(logical + JoinFrom(rows, acc), before + rows)
    decreases |rows|
  {
    hide Ink, Concat, RowCells, LineWords, Words, Closed, Open, Trim, Collected, Joins;
    if rows == [] {
      assert before + rows == before;
      Ended(logical, acc, before);
    } else {
      var r, trimmed := rows[0], Trim(rows[0].cells);
      TrimKeeps(r.cells);
      TakeRow(logical, acc, before, r, trimmed);
      assert before + rows == (before + [r]) + rows[1..];
      var line := acc + trimmed;
      if r.soft {
        AddedSpace(logical, line, before + [r]);
        JoinFromJoins(logical, Spaced(line), before + [r], rows[1..]);
      } else {
        JoinFromJoins(logical + [line], [], before + [r], rows[1..]);
        assert logical + ([line] + JoinFrom(rows[1..], [])) == (logical + [line]) + JoinFrom(rows[1..], []);
      }
    }
  }

  lemma {:induction false} AddedSpace(logical: seq<seq<Cell>>, line: seq<Cell>, rows: seq<Row>)
    requires Collected(logical, line, rows)
    ensures Collected(logical, Spaced(line), rows)
  {
    AddSpace(line);
  }

  lemma {:induction false} Ended(logical: seq<seq<Cell>>, acc: seq<Cell>, rows: seq<Row>)
    requires Collected(logical, acc, rows)
    ensures Joins(logical + JoinFrom([], acc), rows)
  {
    hide Ink, Concat, RowCells, LineWords, Words, Closed, Open;
    NoInk();
    if acc == [] {
      assert logical + [] == logical;
    } else {
      PushLine(logical, acc);
    }
  }

  lemma {:induction false} LogicalJoins(rows: seq<Row>)
    ensures Logical(rows) != [] && Joins(Logical(rows), rows)
  {
    hide Ink, RowCells, Words, Closed, Open;
    NoInk();
    assert Collected([], [], []) by {
      assert LineWords([]) == [] && Concat([]) == [];
    }
    JoinFromJoins([], [], [], rows);
    assert [] + JoinFrom(rows, []) == JoinFrom(rows, []) && [] + rows == rows;
    if JoinFrom(rows, []) == [] {
      OneEmptyLine();
    }
  }

  lemma {:induction false} OneEmptyLine()
    ensures LineWords([[]]) == [[]] && Ink(Concat([[]])) == []
  {
    assert Concat([[]]) == [];
  }

  /** The lines collected from `rows` and the line under way hold the rows' paragraphs and ink. */
  ghost predicate Collected(logical: seq<seq<Cell>>, acc: seq<Cell>, rows: seq<Row>) {
    && LineWords(logical) == Closed(rows) && Words(acc) == Open(rows)
    && Ink(Concat(logical)) + Ink(acc) == Ink(RowCells(rows))
  }

  lemma {:induction false} TakeRow(logical: seq<seq<Cell>>, acc: seq<Cell>, rows: seq<Row>, r: Row, trimmed: seq<Cell>)
    requires Collected(logical, acc, rows) && (acc == [] || Space(acc[|acc| - 1]))
    requires Words(trimmed) == Words(r.cells) && Ink(trimmed) == Ink(r.cells)
    ensures if r.soft then Collected(logical, acc + trimmed, rows + [r]) else Collected(logical + [acc + trimmed], [], rows + [r])
  {
    hide Ink, Concat, RowCells, LineWords, Words, Closed, Open;
    NoInk();
    WordsConcat(acc, trimmed);
    InkConcat(acc, trimmed);
    ParagraphStep(rows, r);
    RowCellsPush(rows, r);
    InkConcat(RowCells(rows), r.cells);
    PushLine(logical, acc + trimmed);
    assert Ink(Concat(logical)) + (Ink(acc) + Ink(trimmed)) == Ink(RowCells(rows)) + Ink(r.cells);
  }

  lemma {:induction false} PushLine(lines: seq<seq<Cell>>, line: seq<Cell>)
    ensures LineWords(lines + [line]) == LineWords(lines) + [Words(line)]
    ensures Ink(Concat(lines + [line])) == Ink(Concat(lines)) + Ink(line)
  {
    LineWordsPush(lines, line);
    ConcatPush(lines, line);
    InkConcat(Concat(lines), line);
  }

  lemma {:induction false} AddSpace(acc: seq<Cell>)
    ensures Words(acc + [EMPTY]) == Words(acc) && Ink(acc + [EMPTY]) == Ink(acc)
  {
    InkConcat(acc, [EMPTY]);
    InkOfBlank([EMPTY]);
    WordsConcat(acc, [EMPTY]);
    WordsOfBlank([EMPTY]);
  }

  lemma {:induction false} NoInk()
    ensures Ink([]) == [] && Concat([]) == [] && RowCells([]) == []
    ensures Words([]) == [] && Closed([]) == [] && Open([]) == [] && LineWords([]) == []
  {
  }

  function WrapAll(lines: seq<seq<Cell>>, cols: nat): seq<Row>
    requires cols > 0
  {
    if lines == [] then [] else WrapAll(lines[..|lines| - 1], cols) + WrapRows(lines[|lines| - 1], cols)
  }

  /** Wraps every logical line at the new width. */
  method RewrapAll(logical: seq<seq<Cell>>, cols: nat) returns (wrapped: seq<Row>)
    requires cols > 0
    ensures wrapped == WrapAll(logical, cols)
  {
    wrapped := [];
    var i := 0;
    while i < |logical|
      invariant i <= |logical| && wrapped == WrapAll(logical[..i], cols)
    {
      var rows := WrapWords(logical[i], cols);
      assert logical[..i + 1][..i] == logical[..i];
      wrapped := wrapped + rows;
      i := i + 1;
    }
    assert logical[..i] == logical;
  }

  lemma {:induction false} WrapAllKeeps(lines: seq<seq<Cell>>, cols: nat)
    requires cols > 0
    ensures AllWide(WrapAll(lines, cols), cols) && Ink(RowCells(WrapAll(lines, cols))) == Ink(Concat(lines))
    ensures lines != [] ==> WrapAll(lines, cols) != []
    decreases |lines|
  {
    hide Ink, Concat, RowCells, Words, AllPieces, RowWords;
    NoInk();
    if lines != [] {
      var n := |lines| - 1;
      var before, rows := WrapAll(lines[..n], cols), WrapRows(lines[n], cols);
      WrapAllKeeps(lines[..n], cols);
      WrapRowsWraps(lines[n], cols);
      WrappedInk(rows, lines[n], cols);
      RowCellsConcat(before, rows);
      InkConcat(RowCells(before), RowCells(rows));
      assert lines == lines[..n] + [lines[n]];
      ConcatPush(lines[..n], lines[n]);
      InkConcat(Concat(lines[..n]), lines[n]);
    }
  }

  /** The rows at another width. */
  function Reflowed(rows: seq<Row>, cols: nat): seq<Row>
    requires cols > 0
  {
    WrapAll(Logical(rows), cols)
  }

  /** Reflow keeps every cell that is not a space, in order, and gives rows of exactly the width. */
  lemma {:induction false} ReflowKeepsInk(rows: seq<Row>, cols: nat)
    requires cols > 0
    ensures Reflowed(rows, cols) != [] && AllWide(Reflowed(rows, cols), cols)
    ensures Ink(RowCells(Reflowed(rows, cols))) == Ink(RowCells(rows))
  {
    LogicalJoins(rows);
    WrapAllKeeps(Logical(rows), cols);
  }
}
