/** The kernel log: a ring of the most recent lines, and the flusher that appends new lines to a file.
    `total` does not wrap: it counts lines in a 64-bit word. */
module Klog {

  import opened Common

  type Line = seq<byte>

  const LOG_LINES: nat := 8192
  const LOG_WIDTH: nat := 150
  const SHOWN: nat := 50
  const NEWLINE: byte := 10

  /** Lines as they appear in the file. */
  function Render(lines: seq<Line>): seq<byte> {
    if lines == [] then [] else Render(lines[..|lines| - 1]) + lines[|lines| - 1] + [NEWLINE]
  }

  lemma {:induction false} RenderNothing()
    ensures Render([]) == []
  {
  }

  lemma {:induction false} RenderPush(lines: seq<Line>, line: Line)
    ensures Render(lines + [line]) == Render(lines) + line + [NEWLINE]
  {
    assert (lines + [line])[..|lines|] == lines;
  }

  lemma {:induction false} RenderConcat(a: seq<Line>, b: seq<Line>)
    ensures Render(a + b) == Render(a) + Render(b)
    decreases |b|
  {
    if b == [] {
      assert a + b == a;
    } else {
      var n := |b| - 1;
      assert a + b == (a + b[..n]) + [b[n]];
      RenderConcat(a, b[..n]);
      RenderPush(a + b[..n], b[n]);
    }
  }

  /** The line being written and the lines finished so far. */
  datatype Text = Text(done: seq<Line>, cur: Line)

  /** What one character does: a line is finished by a newline or by running full. */
  function Fed(t: Text, c: nat): Text {
    if c == 10 then Text(t.done + [t.cur], [])
    else if c == 13 then t.(cur := [])
    else if c == 8 then t.(cur := if t.cur == [] then [] else t.cur[..|t.cur| - 1])
    else if c >= 128 then t
    else if |t.cur| >= LOG_WIDTH then Text(t.done + [t.cur], [c])
    else t.(cur := t.cur + [c])
  }

  function FedAll(t: Text, s: seq<nat>): Text {
    if s == [] then t else Fed(FedAll(t, s[..|s| - 1]), s[|s| - 1])
  }

  predicate Proper(line: Line) {
    |line| <= 150 && forall i | 0 <= i < |line| :: line[i] < 128 && line[i] != NEWLINE
  }

  /** Every line is at most as wide as the ring and holds no newline, so the file's newlines are
      exactly the line ends; finished lines never change. */
  lemma {:induction false} LinesAreProper(t: Text, s: seq<nat>)
    requires Proper(t.cur) && forall i | 0 <= i < |t.done| :: Proper(t.done[i])
    ensures Proper(FedAll(t, s).cur) && t.done <= FedAll(t, s).done
    ensures forall i | 0 <= i < |FedAll(t, s).done| :: Proper(FedAll(t, s).done[i])
  {
    if s != [] {
      LinesAreProper(t, s[..|s| - 1]);
    }
  }

  predicate Printable(c: nat) { c < 128 && c != 10 && c != 13 && c != 8 }

  /** Text that fits the line is collected as it is. */
  lemma {:induction false} PlainTextCollects(t: Text, s: seq<nat>)
    requires |t.cur| + |s| <= LOG_WIDTH && forall i | 0 <= i < |s| :: Printable(s[i])
    ensures FedAll(t, s).done == t.done && FedAll(t, s).cur == t.cur + AsLine(s)
  {
    if s != [] {
      var n := |s| - 1;
      PlainTextCollects(t, s[..n]);
      assert Printable(s[n]);
      var last: byte := s[n];
      assert t.cur + (AsLine(s[..n]) + [last]) == (t.cur + AsLine(s[..n])) + [last];
    } else {
      assert t.cur + AsLine(s) == t.cur;
    }
  }

  function AsLine(s: seq<nat>): (line: Line)
    requires forall i | 0 <= i < |s| :: Printable(s[i])
    ensures |line| == |s| && forall i | 0 <= i < |s| :: line[i] == s[i]
  {
    if s == [] then []
    else
      assert Printable(s[|s| - 1]);
      var last: byte := s[|s| - 1];
      AsLine(s[..|s| - 1]) + [last]
  }

  /** A printable line that fits the ring's width is logged verbatim by its newline. */
  lemma {:induction false} LineIsLogged(t: Text, s: seq<nat>)
    requires t.cur == [] && |s| <= 150 && forall i | 0 <= i < |s| :: Printable(s[i])
    ensures FedAll(t, s + [10]) == Text(t.done + [AsLine(s)], [])
  {
    assert (s + [10])[..|s|] == s;
    PlainTextCollects(t, s);
    assert [] + AsLine(s) == AsLine(s);
  }

  /** The oldest line still in the ring. */
  function Oldest(total: nat): nat { if total <= LOG_LINES then 0 else total - LOG_LINES }

  /** The slot of line `s` holds it. */
  ghost predicate Holds(lines: seq<seq<byte>>, lens: seq<nat>, history: seq<Line>, s: nat)
    requires s < |history|
  {
    && |lines| == LOG_LINES && |lens| == LOG_LINES
    && lens[s % LOG_LINES] <= |lines[s % LOG_LINES]|
    && lines[s % LOG_LINES][..lens[s % LOG_LINES]] == history[s]
  }

  lemma {:induction false} OtherSlot(s: nat, t: nat)
    requires s < t < s + LOG_LINES
    ensures s % LOG_LINES != t % LOG_LINES
  {
  }

  /** Every line still in the ring is in its slot. */
  ghost predicate AllHeld(lines: seq<seq<byte>>, lens: seq<nat>, history: seq<Line>) {
    && |lines| == LOG_LINES && |lens| == LOG_LINES && (forall i | 0 <= i < LOG_LINES :: |lines[i]| == LOG_WIDTH)
    && forall s | Oldest(|history|) <= s < |history| :: Holds(lines, lens, history, s)
  }

  /** Writing the next line over the oldest slot keeps the others. */
  lemma {:induction false} StillHeld(lines: seq<seq<byte>>, lens: seq<nat>, history: seq<Line>, line: Line,
                                     padded: seq<byte>)
    requires AllHeld(lines, lens, history) && line <= padded && |padded| == LOG_WIDTH
    ensures var i := |history| % LOG_LINES;
            AllHeld(lines[i := padded], lens[i := |line|], history + [line])
  {
    var i := |history| % LOG_LINES;
    var lines', lens', history' := lines[i := padded], lens[i := |line|], history + [line];
    forall s | Oldest(|history'|) <= s < |history'|
      ensures Holds(lines', lens', history', s)
    {
      if s < |history| {
        assert Holds(lines, lens, history, s);
        OtherSlot(s, |history|);
      }
    }
  }

  lemma {:induction false} SlotInRing(lines: seq<seq<byte>>, lens: seq<nat>, history: seq<Line>)
    requires AllHeld(lines, lens, history)
    ensures |history| % LOG_LINES < |lines| == |lens|
  {
  }

  lemma {:induction false} NextCounters(total: nat)
    ensures var count := Min(total, LOG_LINES);
            Min(total + 1, LOG_LINES) == if count < LOG_LINES then count + 1 else LOG_LINES
    ensures (total + 1) % LOG_LINES == (total % LOG_LINES + 1) % LOG_LINES
    ensures total % LOG_LINES % LOG_LINES == total % LOG_LINES
  {
  }

  class Ring {
    var lines: seq<seq<byte>>
    var lens: seq<nat>
    var head: nat
    var count: nat
    var total: nat
    var cur: Line
    ghost var history: seq<Line>

    ghost predicate Valid()
      reads this
    {
      && AllHeld(lines, lens, history) && |cur| <= LOG_WIDTH
      && total == |history| && count == Min(total, LOG_LINES) && head == total % LOG_LINES
    }

    ghost function View(): Text
      reads this
    {
      Text(history, cur)
    }

    constructor ()
      ensures Valid() && history == [] && cur == []
    {
      lines, lens := seq(LOG_LINES, i => seq(LOG_WIDTH, j => 0)), seq(LOG_LINES, i => 0);
      head, count, total, cur := 0, 0, 0, [];
      history := [];
    }

    method CommitLine()
      requires Valid()
      modifies this
      ensures Valid() && history == old(history) + [old(cur)] && cur == []
    {
      hide AllHeld, Holds;
      NextCounters(total);
      SlotInRing(lines, lens, history);
      var i, n := head % LOG_LINES, |cur|;
      var blank: seq<byte> := seq(LOG_WIDTH, j => 0);
      StillHeld(lines, lens, history, cur, cur + blank[n..]);
      lines := lines[i := cur + blank[n..]];
      lens := lens[i := n];
      head := (head + 1) % LOG_LINES;
      if count < LOG_LINES {
        count := count + 1;
      }
      history := history + [cur];
      total := total + 1;
      cur := [];
    }

    method FeedChar(c: nat)
      requires Valid()
      modifies this
      ensures Valid() && View() == Fed(old(View()), c)
    {
      if c == 10 {
        CommitLine();
        return;
      }
      if c == 13 {
        cur := [];
        return;
      }
      if c == 8 {
        if |cur| > 0 {
          cur := cur[..|cur| - 1];
        }
        return;
      }
      if c >= 128 {
        return;
      }
      if |cur| >= LOG_WIDTH {
        CommitLine();
      }
      cur := cur + [c];
    }

    /** A string is dropped whole when the lock is taken, and otherwise fed character by character. */
    method WriteStr(locked: bool, s: seq<nat>)
      requires Valid()
      modifies this
      ensures Valid() && View() == if locked then FedAll(old(View()), s) else old(View())
    {
      if !locked {
        return;
      }
      var i := 0;
      while i < |s|
        invariant i <= |s| && Valid() && View() == FedAll(old(View()), s[..i])
      {
        assert s[..i + 1][..i] == s[..i];
        FeedChar(s[i]);
        i := i + 1;
      }
      assert s[..i] == s;
    }

    /** The line `skip` places after the oldest. */
    method LineAt(skip: nat) returns (line: Line)
      requires Valid() && skip < count
      ensures Oldest(total) + skip < |history| && line == history[Oldest(total) + skip]
    {
      var oldest := if count < LOG_LINES then 0 else head % LOG_LINES;
      var i := (oldest + skip) % LOG_LINES;
      assert i == (Oldest(total) + skip) % LOG_LINES;
      assert Holds(lines, lens, history, Oldest(total) + skip);
      line := lines[i][..lens[i]];
    }

    /** The newest lines, at most fifty, oldest first, and then the line under way. */
    method ForEachLineLast() returns (out: seq<Line>)
      requires Valid()
      ensures out == history[|history| - Min(|history|, 50)..] + if cur == [] then [] else [cur]
    {
      out := [];
      var shown, idx := Min(count, SHOWN), 0;
      ghost var from := |history| - shown;
      assert history[from..from] == [];
      while idx < shown
        invariant idx <= shown && out == history[from..from + idx]
      {
        var line := LineAt(count - shown + idx);
        assert history[from..from + idx + 1] == history[from..from + idx] + [history[from + idx]];
        out := out + [line];
        idx := idx + 1;
      }
      assert history[from..from + idx] == history[from..];
      if |cur| > 0 {
        out := out + [cur];
      }
    }

    /** Exactly the finished lines from `cursor` on that are still in the ring, in order. */
    method SnapshotFrom(locked: bool, cursor: nat) returns (out: seq<byte>, end: nat)
      requires Valid()
      ensures !locked ==> out == [] && end == cursor
      ensures locked ==> end == |history| && out == Render(history[First(cursor, |history|)..])
    {
      hide Render, Holds;
      if !locked {
        return [], cursor;
      }
      RenderNothing();
      var oldest := if total < count then 0 else total - count;
      var first := Min(Max(cursor, oldest), total);
      assert first == First(cursor, total);
      out, end := [], total;
      if first == total {
        assert history[first..] == [];
        return;
      }
      var skip, take, n := first - oldest, total - first, 0;
      assert history[first..first] == [];
      while n < take
        invariant n <= take && out == Render(history[first..first + n])
      {
        var line := LineAt(skip + n);
        assert history[first..first + n + 1] == history[first..first + n] + [history[first + n]];
        RenderPush(history[first..first + n], history[first + n]);
        out := out + line;
        out := out + [NEWLINE];
        n := n + 1;
      }
      assert history[first..first + n] == history[first..];
    }
  }

  /** The first line a flush takes. */
  function First(cursor: nat, total: nat): (f: nat)
    ensures f <= total
  {
    Min(Max(cursor, Oldest(total)), total)
  }

  // ---- The file ----

  /** Lines logged, the flusher's cursor, the file, and (for the proof) the numbers of the lines in it. */
  datatype Log = Log(history: seq<Line>, cursor: nat, file: seq<byte>, written: seq<nat>)

  datatype Event =
    | Commit(line: Line)                              // a line is finished
    | Busy                                            // a flush finds the ring locked
    | NoFile                                          // a flush finds no file to append to
    | Flush(accepted: nat)                            // a flush whose append takes that many bytes

  function Numbers(from: nat, to: nat): seq<nat>
    requires from <= to
  {
    seq(to - from, i => from + i)
  }

  function Snapshot(l: Log): seq<byte> { Render(l.history[First(l.cursor, |l.history|)..]) }

  predicate Enabled(l: Log, e: Event) { e.Flush? ==> e.accepted <= |Snapshot(l)| }

  /** An append that either takes everything or nothing. */
  predicate WholeAppend(l: Log, e: Event) { e.Flush? ==> e.accepted == 0 || e.accepted == |Snapshot(l)| }

  function Next(l: Log, e: Event): Log
    requires Enabled(l, e)
  {
    match e
    case Commit(line) => l.(history := l.history + [line])
    case Busy => l
    case NoFile => if Snapshot(l) == [] then l.(cursor := |l.history|) else l
    case Flush(accepted) =>
      var first, total, bytes := First(l.cursor, |l.history|), |l.history|, Snapshot(l);
      if bytes == [] then l.(cursor := total)
      else if accepted == |bytes| then
        l.(cursor := total, file := l.file + bytes, written := l.written + Numbers(first, total))
      else l.(file := l.file + bytes[..accepted])
  }

  /** One flush: the cursor moves only past bytes that were all accepted. */
  method FlushSystemLog(ring: Ring, ghost l: Log, cursor: nat, file: seq<byte>, locked: bool, found: bool, accepted: nat)
    returns (cursor': nat, file': seq<byte>)
    requires ring.Valid() && l.history == ring.history && l.cursor == cursor && l.file == file
    requires accepted <= |Snapshot(l)|
    ensures var m := Next(l, if !locked then Busy else if !found then NoFile else Flush(accepted));
            cursor' == m.cursor && file' == m.file
  {
    hide Render;
    var bytes, end := ring.SnapshotFrom(locked, cursor);
    if bytes == [] {
      return end, file;
    }
    if !found {
      return cursor, file;
    }
    file' := file + bytes[..accepted];
    assert accepted == |bytes| ==> bytes[..accepted] == bytes;
    cursor' := if accepted == |bytes| then end else cursor;
  }

  predicate Runnable(l: Log, run: seq<Event>)
    decreases |run|, 0
  {
    run == [] ||
    var n := |run| - 1;
    Runnable(l, run[..n]) && Enabled(Run(l, run[..n]), run[n])
  }

  function Run(l: Log, run: seq<Event>): Log
    requires Runnable(l, run)
    decreases |run|, 1
  {
    if run == [] then l else Next(Run(l, run[..|run| - 1]), run[|run| - 1])
  }

  /** Every append of the run takes everything or nothing. */
  predicate AllWhole(l: Log, run: seq<Event>)
    requires Runnable(l, run)
    decreases |run|
  {
    run == [] ||
    var n := |run| - 1;
    AllWhole(l, run[..n]) && WholeAppend(Run(l, run[..n]), run[n])
  }

  predicate InRange(written: seq<nat>, total: nat) {
    forall i | 0 <= i < |written| :: written[i] < total
  }

  function Chosen(history: seq<Line>, written: seq<nat>): seq<Line>
    requires InRange(written, |history|)
  {
    seq(|written|, i requires 0 <= i < |written| => history[written[i]])
  }

  /** In order and at most once. */
  predicate Increasing(s: seq<nat>) {
    forall i, j | 0 <= i < j < |s| :: s[i] < s[j]
  }

  /** The bookkeeping: the lines appended as a whole are lines before the cursor, each once and in order,
      and the file has at least their bytes. */
  ghost predicate Inv(l: Log) {
    && l.cursor <= |l.history| && InRange(l.written, l.cursor) && Increasing(l.written)
    && InRange(l.written, |l.history|) && |Render(Chosen(l.history, l.written))| <= |l.file|
  }

  /** The file is exactly those lines. */
  ghost predicate Exact(l: Log)
    requires InRange(l.written, |l.history|)
  {
    l.file == Render(Chosen(l.history, l.written))
  }

  lemma {:induction false} CommitKeeps(l: Log, line: Line)
    requires Inv(l)
    ensures var m := Next(l, Commit(line)); Inv(m) && (Exact(m) <==> Exact(l))
  {
    assert Chosen(l.history + [line], l.written) == Chosen(l.history, l.written);
  }

  lemma {:induction false} FlushKeeps(l: Log)
    requires Inv(l)
    ensures var m := Next(l, Flush(|Snapshot(l)|)); Inv(m) && (Exact(m) <==> Exact(l))
  {
    hide Render;
    var first, total := First(l.cursor, |l.history|), |l.history|;
    var more := Numbers(first, total);
    SnapshotEmpty(l);
    if Snapshot(l) != [] {
      var before := Chosen(l.history, l.written);
      assert Chosen(l.history, l.written + more) == before + l.history[first..];
      RenderConcat(before, l.history[first..]);
      assert l.cursor <= first;
      SameSuffix(l.file, Render(before), Snapshot(l));
    }
  }

  lemma {:induction false} SameSuffix(a: seq<byte>, b: seq<byte>, c: seq<byte>)
    ensures a + c == b + c <==> a == b
  {
    if a + c == b + c {
      assert |a| == |b| && a == (a + c)[..|a|] && b == (b + c)[..|b|];
    }
  }

  /** There is nothing to append exactly when the flusher has caught up. */
  lemma {:induction false} SnapshotEmpty(l: Log)
    requires l.cursor <= |l.history|
    ensures Snapshot(l) == [] <==> l.cursor == |l.history|
  {
    var first := First(l.cursor, |l.history|);
    var rest := l.history[first..];
    if rest != [] {
      RenderPush(rest[..|rest| - 1], rest[|rest| - 1]);
      assert rest == rest[..|rest| - 1] + [rest[|rest| - 1]];
    }
  }

  lemma {:induction false} RunInv(l: Log, run: seq<Event>)
    requires Inv(l) && Runnable(l, run)
    ensures Inv(Run(l, run))
    decreases |run|
  {
    hide Inv;
    if run != [] {
      var n := |run| - 1;
      RunInv(l, run[..n]);
      StepInv(Run(l, run[..n]), run[n]);
    }
  }

  /** Every event keeps the bookkeeping, and the file stays exact exactly if its append is whole. */
  lemma {:induction false} StepInv(l: Log, e: Event)
    requires Inv(l) && Enabled(l, e)
    ensures Inv(Next(l, e)) && (Exact(Next(l, e)) <==> Exact(l) && WholeAppend(l, e))
  {
    hide Render;
    match e
    case Commit(line) => CommitKeeps(l, line);
    case Busy =>
    case NoFile => SnapshotEmpty(l);
    case Flush(accepted) =>
      if accepted == |Snapshot(l)| {
        FlushKeeps(l);
      } else {
        assert l.file + Snapshot(l)[..0] == l.file;
      }
  }

  /** The file is exact at the end of a run if and only if every append took everything or nothing: one
      partial append spoils it for good. */
  lemma {:induction false} ExactIffAllWhole(l: Log, run: seq<Event>)
    requires Inv(l) && Exact(l) && Runnable(l, run)
    ensures Inv(Run(l, run)) && (Exact(Run(l, run)) <==> AllWhole(l, run))
    decreases |run|
  {
    hide Inv, Exact, Next;
    RunInv(l, run);
    if run != [] {
      var n := |run| - 1;
      ExactIffAllWhole(l, run[..n]);
      StepInv(Run(l, run[..n]), run[n]);
    }
  }

  const NOTHING: Log := Log([], 0, [], [])

  /** Log, cursor, file and the record of what is in it only ever grow. */
  predicate Extends(l: Log, m: Log) {
    l.history <= m.history && l.cursor <= m.cursor && l.file <= m.file && l.written <= m.written
  }

  lemma {:induction false} StepExtends(l: Log, e: Event)
    requires l.cursor <= |l.history| && Enabled(l, e)
    ensures Extends(l, Next(l, e))
  {
    hide Render;
  }

  lemma {:induction false} RunExtends(l: Log, run: seq<Event>, k: nat)
    requires Inv(l) && Runnable(l, run) && k <= |run|
    ensures Runnable(l, run[..k]) && Extends(Run(l, run[..k]), Run(l, run))
    decreases |run|
  {
    hide Next, Inv, Extends;
    if k == |run| {
      assert run[..k] == run;
      Unchanged(Run(l, run));
    } else {
      var n := |run| - 1;
      RunExtends(l, run[..n], k);
      assert run[..n][..k] == run[..k];
      RunInv(l, run[..n]);
      InvBounds(Run(l, run[..n]));
      StepExtends(Run(l, run[..n]), run[n]);
      ExtendsTransitive(Run(l, run[..k]), Run(l, run[..n]), Run(l, run));
    }
  }

  lemma {:induction false} Unchanged(l: Log)
    ensures Extends(l, l)
  {
  }

  lemma {:induction false} InvBounds(l: Log)
    requires Inv(l)
    ensures l.cursor <= |l.history| && InRange(l.written, l.cursor)
  {
  }

  lemma {:induction false} ExtendsTransitive(l: Log, m: Log, n: Log)
    requires Extends(l, m) && Extends(m, n)
    ensures Extends(l, n)
  {
  }

  /** Line `s` is waiting for a flush and its slot has been used again. */
  predicate Overrun(l: Log, s: nat) { l.cursor <= s && s + 8192 < |l.history| }

  /** At some moment of the run, line `s` was overwritten in the ring before a flush came to it. */
  ghost predicate OverrunIn(run: seq<Event>, s: nat) {
    exists k | 0 <= k <= |run| :: Runnable(NOTHING, run[..k]) && Overrun(Run(NOTHING, run[..k]), s)
  }

  lemma {:induction false} OverrunStays(run: seq<Event>, s: nat)
    requires run != [] && OverrunIn(run[..|run| - 1], s)
    ensures OverrunIn(run, s)
  {
    var r := run[..|run| - 1];
    var k :| 0 <= k <= |r| && Runnable(NOTHING, r[..k]) && Overrun(Run(NOTHING, r[..k]), s);
    assert r[..k] == run[..k];
  }

  /** An append adds exactly the waiting lines that are still in the ring. */
  lemma {:induction false} StepWrites(l: Log, e: Event, s: nat)
    requires Inv(l) && Enabled(l, e) && s < Next(l, e).cursor
    ensures s < l.cursor ==> (s in Next(l, e).written <==> s in l.written)
    ensures l.cursor <= s ==> (s in Next(l, e).written <==> !Overrun(l, s))
  {
    hide Render;
    SnapshotEmpty(l);
    var first, total := First(l.cursor, |l.history|), |l.history|;
    assert l.cursor <= s ==> s !in l.written;
    if Next(l, e).written != l.written && first <= s {
      assert Numbers(first, total)[s - first] == s;
    }
  }

  /** Exactly the lines before the cursor that were never overrun have been appended whole. */
  lemma {:induction false} WrittenIffNeverOverrun(run: seq<Event>, s: nat)
    requires Runnable(NOTHING, run) && s < Run(NOTHING, run).cursor
    ensures s in Run(NOTHING, run).written <==> !OverrunIn(run, s)
    decreases |run|
  {
    hide Next, Inv, Render;
    var n := |run| - 1;
    var l := Run(NOTHING, run[..n]);
    NothingInv();
    RunInv(NOTHING, run[..n]);
    StepWrites(l, run[n], s);
    if s < l.cursor {
      WrittenIffNeverOverrun(run[..n], s);
      if OverrunIn(run[..n], s) {
        OverrunStays(run, s);
      } else {
        NoNewOverrun(run, s);
      }
    } else if Overrun(l, s) {
      assert Runnable(NOTHING, run[..n]) && Overrun(Run(NOTHING, run[..n]), s);
    } else {
      NeverOverrun(run, s);
    }
  }

  lemma {:induction false} NothingInv()
    ensures Inv(NOTHING) && Exact(NOTHING)
  {
  }

  lemma {:induction false} NoNewOverrun(run: seq<Event>, s: nat)
    requires Runnable(NOTHING, run) && run != [] && s < Run(NOTHING, run).cursor && !OverrunIn(run[..|run| - 1], s)
    ensures !OverrunIn(run, s)
  {
    hide Next, Run, Runnable;
    var n := |run| - 1;
    forall k | 0 <= k <= |run| && Runnable(NOTHING, run[..k])
      ensures !Overrun(Run(NOTHING, run[..k]), s)
    {
      if k <= n {
        assert run[..n][..k] == run[..k];
      } else {
        assert run[..k] == run;
      }
    }
  }

  lemma {:induction false} NeverOverrun(run: seq<Event>, s: nat)
    requires Runnable(NOTHING, run) && run != [] && s < Run(NOTHING, run).cursor
    requires !Overrun(Run(NOTHING, run[..|run| - 1]), s) && Run(NOTHING, run[..|run| - 1]).cursor <= s
    ensures !OverrunIn(run, s)
  {
    hide Next, Inv;
    var n := |run| - 1;
    NothingInv();
    forall k | 0 <= k <= |run| && Runnable(NOTHING, run[..k])
      ensures !Overrun(Run(NOTHING, run[..k]), s)
    {
      if k <= n {
        RunExtends(NOTHING, run[..n], k);
        assert run[..n][..k] == run[..k];
      } else {
        assert run[..k] == run;
      }
    }
  }

  /** Persistence over every run of commits and flushes, however much each append takes: each line is
      appended whole at most once and in order, nothing is ever taken out of the file again, a line before
      the cursor is missing exactly if it was overwritten in the ring before a flush came to it, and the
      file is just those lines exactly if every append took everything or nothing. */
  lemma {:induction false} PersistedExactlyOnce(run: seq<Event>)
    requires Runnable(NOTHING, run)
    ensures var l := Run(NOTHING, run);
            && InRange(l.written, |l.history|) && Increasing(l.written)
            && (l.file == Render(Chosen(l.history, l.written)) <==> AllWhole(NOTHING, run))
            && (forall s: nat | s < l.cursor :: s in l.written <==> !OverrunIn(run, s))
            && forall k | 0 <= k <= |run| :: Runnable(NOTHING, run[..k]) && Extends(Run(NOTHING, run[..k]), l)
  {
    hide Run, Runnable, Extends, AllWhole;
    NothingInv();
    ExactIffAllWhole(NOTHING, run);
    forall s: nat | s < Run(NOTHING, run).cursor
      ensures s in Run(NOTHING, run).written <==> !OverrunIn(run, s)
    {
      WrittenIffNeverOverrun(run, s);
    }
    forall k | 0 <= k <= |run|
      ensures Runnable(NOTHING, run[..k]) && Extends(Run(NOTHING, run[..k]), Run(NOTHING, run))
    {
      RunExtends(NOTHING, run, k);
    }
  }

  /** After an append that took `k` bytes, the next complete flush writes the same lines again: the
      file has what it would have had without the first flush exactly when that one took nothing. */
  lemma {:induction false} PartialAppendRepeatsIff(l: Log, k: nat)
    requires k < |Snapshot(l)|
    ensures var m := Next(l, Flush(k));
            && Snapshot(m) == Snapshot(l)
            && var n := Next(m, Flush(|Snapshot(m)|));
               && n.file == l.file + Snapshot(l)[..k] + Snapshot(l)
               && (n.file == l.file + Snapshot(l) <==> k == 0)
  {
    var b := Snapshot(l);
    assert k == 0 ==> l.file + b[..k] + b == l.file + b;
    assert |l.file + b[..k] + b| == |l.file| + k + |b|;
  }

  /** One line, one append that takes half of it, one that takes all: the file has the half and the line. */
  lemma {:induction false} PartialAppendRepeats()
    ensures var run := [Commit([97]), Flush(1), Flush(2)];
            Runnable(NOTHING, run) && Run(NOTHING, run).file == [97, 97, NEWLINE] && !AllWhole(NOTHING, run)
  {
    hide Render, Run, Runnable, AllWhole;
    var run := [Commit([97]), Flush(1), Flush(2)];
    var l1 := Next(NOTHING, Commit([97]));
    OneLine(l1);
    var l2 := Next(l1, Flush(1));
    OneLine(l2);
    RunMore(NOTHING, run[..0]);
    assert run[..0] == [] && run[..1] == run[..0] + [run[0]];
    assert run[..2] == run[..1] + [run[1]] && run == run[..2] + [run[2]];
    RunMore(NOTHING, run[..1]);
    RunMore(NOTHING, run[..2]);
    RunMore(NOTHING, run);
  }

  lemma {:induction false} OneLine(l: Log)
    requires l.history == [[97]] && l.cursor == 0
    ensures Snapshot(l) == [97, NEWLINE]
  {
    assert l.history[0..] == [[97]] && [[97]][..0] == [];
    assert [] + [97] + [NEWLINE] == [97, NEWLINE];
  }

  lemma {:induction false} RunMore(l: Log, run: seq<Event>)
    ensures run == [] ==> Runnable(l, run) && Run(l, run) == l && AllWhole(l, run)
    ensures run != [] ==>
              var before, last := run[..|run| - 1], run[|run| - 1];
              Runnable(l, before) && Enabled(Run(l, before), last) ==>
                && Runnable(l, run) && Run(l, run) == Next(Run(l, before), last)
                && (AllWhole(l, run) ==> AllWhole(l, before) && WholeAppend(Run(l, before), last))
  {
  }
}
