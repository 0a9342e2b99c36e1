/** What the line discipline keeps over every run, and what a reader of the slave side sees. */
module PtyProofs {
  import opened Common
  import opened Pty

  // ---- The invariant of every reachable terminal ----

  function Sum(r: seq<nat>): nat { if r == [] then 0 else r[0] + Sum(r[1..]) }

  lemma {:induction false} SumAppend(r: seq<nat>, x: nat)
    ensures Sum(r + [x]) == Sum(r) + x
  {
    if r == [] {
      assert [x][1..] == [];
    } else {
      assert (r + [x])[1..] == r[1..] + [x];
      SumAppend(r[1..], x);
    }
  }

  predicate Inv(s: PtyState) {
    && |s.toMaster| <= PTY_BUF
    && |s.toSlave| <= PTY_BUF
    && |s.edit| <= CANON_BUF
    && (forall i | 0 <= i < |s.records| :: s.records[i] > 0)
    && Sum(s.records) <= |s.toSlave|
    && (!s.term.canonical ==> s.records == [] && s.edit == [] && !s.eofPending)
  }

  datatype Event =
    | Typed(b: byte)
    | SlaveWrites(data: seq<byte>)
    | SlaveReads(n: nat)
    | MasterReads(n: nat)
    | Retuned(t: Termios)
    | Flushed
    | Opened(side: Side)
    | Closed(side: Side)

  function Step(s: PtyState, e: Event): PtyState {
    match e
    case Typed(b) => if s.slaveRefs == 0 then s else Input(s, b)
    case SlaveWrites(data) =>
      s.(toMaster := s.toMaster + CookAll(s.term, data[..Min(Written(s, Slave, data), |data|)]))
    case SlaveReads(n) => if n == 0 then s else TryRead(s, Slave, n).state
    case MasterReads(n) => if n == 0 then s else TryRead(s, Master, n).state
    case Retuned(t) => SetTermios(s, t)
    case Flushed => FlushInput(s)
    case Opened(side) => AddRef(s, side)
    case Closed(side) => CloseRef(s, side)
  }

  function Run(s: PtyState, es: seq<Event>): PtyState
    decreases |es|
  {
    if es == [] then s else Run(Step(s, es[0]), es[1..])
  }

  lemma {:induction false} CommitInv(s: PtyState)
    requires Inv(s) && s.term.canonical
    ensures Inv(Commit(s))
  {
    SumAppend(s.records, |Fit(s.toSlave, s.edit)|);
  }

  lemma {:induction false} TypedInv(s: PtyState, b: byte)
    requires Inv(s)
    ensures Inv(Input(s, b))
  {
    hide Classify, Echo, Commit, Sum;
    var key := Classify(s.term, b);
    if s.term.canonical {
      CommitInv(s);
      if key.Data? {
        CommitInv(Insert(s, key.b));
      }
    } else {
      RawKeys(s.term, b);
    }
  }

  lemma {:induction false} AcceptedFits(t: Termios, data: seq<byte>, room: nat)
    ensures |CookAll(t, data[..Accepted(t, data, room)])| <= room
  {
    var k := Accepted(t, data, room);
    if k > 0 {
      var rest := data[1..];
      AcceptedFits(t, rest, room - |Cook(t, data[0])|);
      CookAllFront(t, data[..k]);
      assert data[..k][1..] == rest[..k - 1];
    }
  }

  lemma {:induction false} CookAllFront(t: Termios, data: seq<byte>)
    requires data != []
    ensures CookAll(t, data) == Cook(t, data[0]) + CookAll(t, data[1..])
  {
    if |data| > 1 {
      var init, last := data[..|data| - 1], data[|data| - 1];
      CookAllFront(t, init);
      assert init[1..] == data[1..][..|data| - 2];
      assert data[1..][|data| - 2] == last;
    } else {
      assert data[..0] == [] && data[1..] == [];
    }
  }

  lemma {:induction false} ReadInv(s: PtyState, n: nat)
    requires Inv(s) && n > 0
    ensures Inv(TryRead(s, Slave, n).state)
  {
    if s.term.canonical && s.records != [] {
      var r := TryRead(s, Slave, n).state;
      var k := Min(n, s.records[0]);
      if k < s.records[0] {
        assert r.records[1..] == s.records[1..];
      }
    }
  }

  lemma {:induction false} StepInv(s: PtyState, e: Event)
    requires Inv(s)
    ensures Inv(Step(s, e))
  {
    hide Input, Accepted, CloseRef, TryRead;
    match e
    case Typed(b) => TypedInv(s, b);
    case SlaveWrites(data) => AcceptedFits(s.term, data, PTY_BUF - |s.toMaster|);
    case SlaveReads(n) => if n > 0 { ReadInv(s, n); }
    case MasterReads(n) => MasterReadInv(s, n);
    case Closed(side) => CloseInv(s, side);
    case _ =>
  }

  lemma {:induction false} MasterReadInv(s: PtyState, n: nat)
    requires Inv(s)
    ensures Inv(TryRead(s, Master, n).state)
  {
  }

  lemma {:induction false} CloseInv(s: PtyState, side: Side)
    requires Inv(s)
    ensures Inv(CloseRef(s, side))
  {
    if s.term.canonical {
      CommitInv(s.(masterRefs := 0));
    }
  }

  /** Across typing, reads, mode switches, flushes and hangups in any order: the queues stay within
      their size, records are positive and covered by queued bytes, and raw mode holds no record,
      no half-edited line and no pending end-of-file. */
  lemma {:induction false} ReachableInv(es: seq<Event>)
    ensures Inv(Run(Fresh(), es))
  {
    RunInv(Fresh(), es);
  }

  lemma {:induction false} RunInv(s: PtyState, es: seq<Event>)
    requires Inv(s)
    ensures Inv(Run(s, es))
    decreases |es|
  {
    if es != [] {
      StepInv(s, es[0]);
      RunInv(Step(s, es[0]), es[1..]);
    }
  }

  /** In every reachable cooked state with a finished line, a read returns exactly as much of the
      queue as the buffer and the first record allow: the record never outruns the bytes. */
  lemma {:induction false} CanonicalReadIsExact(es: seq<Event>, n: nat)
    requires var s := Run(Fresh(), es); s.term.canonical && s.records != []
    ensures var s := Run(Fresh(), es);
            var k := Min(n, s.records[0]);
            k <= |s.toSlave| && TryRead(s, Slave, n).data == s.toSlave[..k]
  {
    ReachableInv(es);
  }

  // ---- The queue of lines that the flat queue and its record sizes stand for ----

  function Lines(queue: seq<byte>, records: seq<nat>): seq<seq<byte>>
    requires Sum(records) <= |queue|
    decreases |records|
  {
    if records == [] then []
    else [queue[..records[0]]] + Lines(queue[records[0]..], records[1..])
  }

  /** A cooked terminal all of whose queued bytes belong to finished lines. */
  predicate Cooked(s: PtyState) {
    Inv(s) && s.term.canonical && Sum(s.records) == |s.toSlave|
  }

  datatype LineQueue = LineQueue(lines: seq<seq<byte>>, edit: seq<byte>, eof: bool)

  function Alpha(s: PtyState): LineQueue
    requires Inv(s)
  {
    LineQueue(Lines(s.toSlave, s.records), s.edit, s.eofPending)
  }

  function Total(lines: seq<seq<byte>>): nat {
    if lines == [] then 0 else |lines[0]| + Total(lines[1..])
  }

  // The abstract machine: lines are values, there is no flat queue and no record length.

  function Finish(q: LineQueue): LineQueue {
    var room := if Total(q.lines) >= PTY_BUF then 0 else PTY_BUF - Total(q.lines);
    var line := q.edit[..Min(|q.edit|, room)];
    q.(edit := [], lines := if line == [] then q.lines else q.lines + [line])
  }

  function Apply(q: LineQueue, key: Key): LineQueue {
    match key
    case Interrupt(_) => q.(edit := [])
    case Erase => if q.edit == [] then q else q.(edit := q.edit[..|q.edit| - 1])
    case Kill => q.(edit := [])
    case EndOfFile => if q.edit == [] then q.(eof := true) else Finish(q)
    case Data(b) =>
      var q1 := if |q.edit| < CANON_BUF then q.(edit := q.edit + [b]) else q;
      if b == NL then Finish(q1) else q1
  }

  /** A reader takes at most `n` bytes of the oldest line and nothing of the next one. */
  function Take(q: LineQueue, n: nat): LineQueue {
    if q.lines == [] then q.(eof := false)
    else if n >= |q.lines[0]| then q.(lines := q.lines[1..])
    else q.(lines := [q.lines[0][n..]] + q.lines[1..])
  }

  lemma {:induction false} LinesTotal(queue: seq<byte>, records: seq<nat>)
    requires Sum(records) <= |queue|
    ensures Total(Lines(queue, records)) == Sum(records)
    decreases |records|
  {
    if records != [] {
      LinesTotal(queue[records[0]..], records[1..]);
      assert Lines(queue, records)[1..] == Lines(queue[records[0]..], records[1..]);
    }
  }

  lemma {:induction false} LinesAppend(queue: seq<byte>, records: seq<nat>, line: seq<byte>)
    requires Sum(records) == |queue|
    ensures Sum(records + [|line|]) == |queue + line|
    ensures Lines(queue + line, records + [|line|]) == Lines(queue, records) + [line]
    decreases |records|
  {
    SumAppend(records, |line|);
    var records' := records + [|line|];
    if records == [] {
      assert records'[1..] == [] && queue + line == line;
      assert line[..|line|] == line && Lines(line[|line|..], []) == [];
      assert Lines(line, records') == [line[..|line|]] + Lines(line[|line|..], records'[1..]);
      assert [] + [line] == [line] + [];
    } else {
      var r := records[0];
      assert records'[1..] == records[1..] + [|line|];
      assert (queue + line)[..r] == queue[..r] && (queue + line)[r..] == queue[r..] + line;
      LinesAppend(queue[r..], records[1..], line);
    }
  }

  lemma {:induction false} CommitRefines(s: PtyState)
    requires Cooked(s)
    ensures Cooked(Commit(s)) && Alpha(Commit(s)) == Finish(Alpha(s))
  {
    hide Lines;
    CommitInv(s);
    LinesTotal(s.toSlave, s.records);
    LinesAppend(s.toSlave, s.records, Fit(s.toSlave, s.edit));
    assert s.toSlave + [] == s.toSlave;
  }

  /** Typing one byte does to the flat queue what it does to the queue of lines. */
  lemma {:induction false} TypingRefines(s: PtyState, b: byte)
    requires Cooked(s)
    ensures Cooked(Input(s, b)) && Alpha(Input(s, b)) == Apply(Alpha(s), Classify(s.term, b))
  {
    hide Classify, Lines, Echo, Commit;
    TypedInv(s, b);
    var key := Classify(s.term, b);
    if key.EndOfFile? {
      CommitRefines(s);
    } else if key.Data? {
      InsertOnlyEdits(s, key.b);
      CommitRefines(Insert(s, key.b));
    }
  }

  /** A read of any size takes a prefix of the oldest line, never more. */
  lemma {:induction false} ReadRefines(s: PtyState, n: nat)
    requires Cooked(s) && n > 0
    ensures var r := TryRead(s, Slave, n);
            var q := Alpha(s);
            && Cooked(r.state) && Alpha(r.state) == Take(q, n)
            && r.data == (if q.lines == [] then [] else q.lines[0][..Min(n, |q.lines[0]|)])
  {
    hide Sum;
    ReadInv(s, n);
    var r := TryRead(s, Slave, n).state;
    if s.records != [] {
      var first, k := s.records[0], Min(n, s.records[0]);
      FrontCovered(s.records, s.toSlave);
      if k < first {
        FrontShortened(s.records, k);
        assert r.records == s.records[0 := first - k];
        assert r.toSlave[first - k..] == s.toSlave[first..];
        assert r.toSlave[..first - k] == s.toSlave[..first][k..];
      }
      assert Lines(s.toSlave, s.records)[1..] == Lines(s.toSlave[first..], s.records[1..]);
    }
  }

  lemma {:induction false} FrontCovered(records: seq<nat>, queue: seq<byte>)
    requires records != [] && Sum(records) == |queue|
    ensures records[0] <= |queue| && Sum(records[1..]) == |queue| - records[0]
  {
  }

  lemma {:induction false} FrontShortened(records: seq<nat>, k: nat)
    requires records != [] && k <= records[0]
    ensures records[0 := records[0] - k][1..] == records[1..]
    ensures Sum(records[0 := records[0] - k]) == Sum(records) - k
  {
    assert records[0 := records[0] - k][1..] == records[1..];
  }

  // ---- What a typed byte does, by the terminal's characters ----

  /** The erase character; a terminal set to erase with DEL also takes a backspace. */
  predicate Erases(t: Termios, c: byte) { c == t.cc[VERASE] || (t.cc[VERASE] == 127 && c == 8) }

  predicate Signals(t: Termios, b: byte) {
    t.isig && b != 0 && (b == t.cc[VINTR] || b == t.cc[VQUIT] || b == t.cc[VSUSP])
  }

  /** `s'` is `s` but for its half-edited line, and with `echo` on the screen if the terminal echoes. */
  predicate Edited(s: PtyState, s': PtyState, edit: seq<byte>, echo: seq<byte>) {
    && s' == s.(edit := edit, toMaster := s'.toMaster)
    && Queues(s.toMaster, s'.toMaster, if s.term.echo then echo else [])
  }

  /** `q'` is `q` followed by as much of `bytes` as fits in 8192 bytes. */
  predicate Queues(q: seq<byte>, q': seq<byte>, bytes: seq<byte>) {
    && q <= q' && q'[|q|..] <= bytes
    && (q' == q + bytes || |q'| == 8192 || (q' == q && |q| >= 8192))
  }

  lemma {:induction false} FitQueues(q: seq<byte>, bytes: seq<byte>)
    ensures Queues(q, q + Fit(q, bytes), bytes) && Queues(q, q, [])
  {
    assert (q + Fit(q, bytes))[|q|..] == Fit(q, bytes);
  }

  /** The signal characters, in either mode: each is its own signal, empties the line and shows itself. */
  lemma {:induction false} SignalCharacters(s: PtyState, b: byte)
    requires Signals(s.term, b)
    ensures var t, s' := s.term, Input(s, b);
            if b == t.cc[VINTR] then
              SignalOf(Classify(t, b)) == Some(SigInt) && Edited(s, s', [], [94, 67, 13, 10])
            else if b == t.cc[VQUIT] then
              SignalOf(Classify(t, b)) == Some(SigQuit) && Edited(s, s', [], [94, 92, 13, 10])
            else
              SignalOf(Classify(t, b)) == Some(SigTstp) && Edited(s, s', [], [94, 90, 13, 10])
  {
    hide Fit, Queues;
    var echo := SignalEcho(Classify(s.term, b).sig);
    FitQueues(s.toMaster, echo);
  }

  /** Erase, kill and end-of-file in cooked mode. A carriage return counts as a newline if so set. */
  lemma {:induction false} EditingCharacters(s: PtyState, b: byte)
    requires s.term.canonical && !Signals(s.term, b)
    ensures SignalOf(Classify(s.term, b)) == None
    ensures var t, s' := s.term, Input(s, b);
            var c: byte := if t.icrnl && b == 13 then 10 else b;
            && (Erases(t, c) ==>
                  if s.edit == [] then s' == s else Edited(s, s', s.edit[..|s.edit| - 1], [8, 32, 8]))
            && (!Erases(t, c) && c == t.cc[VKILL] && c != 0 ==>
                  if s.edit == [] then s' == s else Edited(s, s', [], [94, 85, 13, 10]))
            && (!Erases(t, c) && c != t.cc[VKILL] && c == t.cc[VEOF] && c != 0 ==>
                  if s.edit == [] then s' == s.(eofPending := true) else Releases(s, s'))
  {
    hide Fit, Queues;
    FitQueues(s.toMaster, [8, 32, 8]);
    FitQueues(s.toMaster, [94, 85, 13, 10]);
    CommitReleases(s);
  }

  /** `s'` is `s` with the half-edited line queued, as much of it as fits, and recorded if anything did. */
  predicate Releases(s: PtyState, s': PtyState) {
    && s' == s.(edit := [], toSlave := s'.toSlave, records := s'.records)
    && Queues(s.toSlave, s'.toSlave, s.edit)
    && s'.records == s.records + (if s'.toSlave == s.toSlave then [] else [|s'.toSlave| - |s.toSlave|])
  }

  lemma {:induction false} CommitReleases(s: PtyState)
    ensures Releases(s, Commit(s))
  {
    FitQueues(s.toSlave, s.edit);
    assert s.records + [] == s.records;
  }

  /** Any other byte joins the line while there is room for it, and a newline ends the line. */
  lemma {:induction false} OrdinaryCharacters(s: PtyState, b: byte)
    requires s.term.canonical && !Signals(s.term, b)
    requires var t := s.term; var c: byte := if t.icrnl && b == 13 then 10 else b;
             !Erases(t, c) && (c == t.cc[VKILL] || c == t.cc[VEOF] ==> c == 0)
    ensures SignalOf(Classify(s.term, b)) == None
    ensures var c: byte := if s.term.icrnl && b == 13 then 10 else b;
            var s1 := Insert(s, c);
            && (if |s.edit| < 1024 then Edited(s, s1, s.edit + [c], [c]) else s1 == s)
            && if c == 10 then Releases(s1, Input(s, b)) else Input(s, b) == s1
  {
    hide Fit, Queues, Releases, Commit;
    var c: byte := if s.term.icrnl && b == 13 then 10 else b;
    FitQueues(s.toMaster, [c]);
    CommitReleases(Insert(s, c));
  }

  /** In raw mode every other byte is queued while there is room. */
  lemma {:induction false} RawCharacters(s: PtyState, b: byte)
    requires !s.term.canonical && !Signals(s.term, b)
    ensures SignalOf(Classify(s.term, b)) == None
    ensures var c: byte := if s.term.icrnl && b == 13 then 10 else b;
            var s' := Input(s, b);
            if |s.toSlave| < 8192 then Edited(s.(toSlave := s.toSlave + [c]), s', s.edit, [c]) else s' == s
  {
    hide Fit, Queues;
    var c: byte := if s.term.icrnl && b == 13 then 10 else b;
    FitQueues(s.toMaster, [c]);
  }

  /** On a fresh terminal: ^C, ^\ and ^Z signal, DEL and backspace erase, ^U kills, ^D is end-of-file. */
  lemma {:induction false} FreshCharacters()
    ensures var t := Fresh().term;
            && t.canonical && t.echo && t.isig && t.icrnl && t.opost && t.onlcr && !t.tostop
            && t.cc[VINTR] == 3 && t.cc[VQUIT] == 28 && t.cc[VSUSP] == 26
            && t.cc[VERASE] == 127 && t.cc[VKILL] == 21 && t.cc[VEOF] == 4 && t.cc[VMIN] == 1 && t.cc[VTIME] == 0
            && forall i | 0 <= i < 19 :: i !in {VINTR, VQUIT, VERASE, VKILL, VEOF, VMIN, VSUSP} ==> t.cc[i] == 0
  {
  }

  /** Nothing is queued, half-edited or latched on a fresh terminal, and each side is open once. */
  lemma {:induction false} FreshIsEmpty()
    ensures Fresh() == PtyState([], [], [], [], 1, 1, false, Fresh().term)
  {
  }

  /** Leaving cooked mode hands the half-edited line to the reader as plain bytes and forgets the line ends and
      a latched end-of-file; any other change of modes touches nothing else. */
  lemma {:induction false} RetuningReleases(s: PtyState, t: Termios)
    ensures var s' := SetTermios(s, t);
            if s.term.canonical && !t.canonical then
              && s' == s.(term := t, records := [], edit := [], eofPending := false, toSlave := s'.toSlave)
              && Queues(s.toSlave, s'.toSlave, s.edit)
            else s' == s.(term := t)
  {
    FitQueues(s.toSlave, s.edit);
  }

  /** Output processing turns a newline into carriage return and newline, if both modes are on, and leaves
      everything else alone. */
  lemma {:induction false} OutputProcessing(t: Termios, data: seq<byte>, b: byte)
    ensures CookAll(t, data + [b]) == CookAll(t, data) + (if t.opost && t.onlcr && b == 10 then [13, 10] else [b])
    ensures CookAll(t, []) == []
  {
    assert (data + [b])[..|data|] == data;
  }

  /** A reader in the background is told so, and so is a writer if the terminal asks for it; the master's side
      has no background. */
  lemma {:induction false} BackgroundIsTold(s: PtyState, side: Side, n: nat, data: seq<byte>,
                                            nonblock: bool, expired: bool)
    ensures ReadOutcome(s, side, n, nonblock, true, expired) == Background <==> side == Slave && n > 0
    ensures WriteOutcome(s, side, data, nonblock, true) == WriteBackground <==> side == Slave && s.term.tostop
    ensures ReadOutcome(s, side, n, nonblock, false, expired) != Background
    ensures WriteOutcome(s, side, data, nonblock, false) != WriteBackground
  {
    hide TryRead, WriteMaster;
  }

  /** A write waits exactly if it may, there is something to write, the other side is open, and not a byte of it
      can be taken. */
  lemma {:induction false} WriteBlocksIff(s: PtyState, side: Side, data: seq<byte>, nonblock: bool)
    ensures WriteOutcome(s, side, data, nonblock, false) == WriteWouldBlock <==>
              && !nonblock && data != [] && Written(s, side, data) == 0
              && (if side == Master then s.slaveRefs > 0 else s.masterRefs > 0)
    ensures side == Slave && s.masterRefs > 0 && |s.toMaster| <= 8192 ==>
              Written(s, side, data) == Accepted(s.term, data, 8192 - |s.toMaster|)
    ensures side == Slave && s.masterRefs == 0 ==> Written(s, side, data) == 0
  {
    hide WriteMaster, Accepted;
  }

  /** A raw terminal's master that is polled writable takes a byte, and one that is not takes none. */
  lemma {:induction false} RawMasterIsWritableIff(s: PtyState, data: seq<byte>)
    requires Inv(s) && !s.term.canonical && data != [] && Classify(s.term, data[0]).Data?
    ensures Writable(s, Master) <==> Written(s, Master, data) > 0
  {
    hide Classify;
    var key := Classify(s.term, data[0]);
    RawProgress(s, key);
  }

  // ---- Whole runs of a cooked terminal ----

  /** Anything but a flush or a switch to raw mode. */
  predicate StaysCooked(es: seq<Event>) {
    forall e | e in es :: e != Flushed && (e.Retuned? ==> e.t.canonical)
  }

  /** Anything but a switch to raw mode. */
  predicate KeepsMode(es: seq<Event>) {
    forall e | e in es :: e.Retuned? ==> e.t.canonical
  }

  /** The line (at most one) that `e` finishes, as it enters the queue. */
  function Finished(s: PtyState, e: Event): seq<seq<byte>> {
    var s' := Step(s, e);
    if |s'.records| > |s.records| && |s'.toSlave| >= |s.toSlave| then [s'.toSlave[|s.toSlave|..]] else []
  }

  /** The chunk (at most one) that `e` hands to the slave's reader. */
  function Handed(s: PtyState, e: Event): seq<seq<byte>> {
    if e.SlaveReads? && e.n > 0 && TryRead(s, Slave, e.n).data != [] then [TryRead(s, Slave, e.n).data] else []
  }

  function AllFinished(s: PtyState, es: seq<Event>): seq<seq<byte>>
    decreases |es|
  {
    if es == [] then [] else Finished(s, es[0]) + AllFinished(Step(s, es[0]), es[1..])
  }

  function AllHanded(s: PtyState, es: seq<Event>): seq<seq<byte>>
    decreases |es|
  {
    if es == [] then [] else Handed(s, es[0]) + AllHanded(Step(s, es[0]), es[1..])
  }

  /** What is left of `lines` once the chunks are taken off in order, each a non-empty piece of the
      then-oldest line; None when they cannot be. */
  function Consume(lines: seq<seq<byte>>, chunks: seq<seq<byte>>): Option<seq<seq<byte>>>
    decreases |chunks|
  {
    if chunks == [] then Some(lines)
    else if lines == [] || chunks[0] == [] || !(chunks[0] <= lines[0]) then None
    else if chunks[0] == lines[0] then Consume(lines[1..], chunks[1..])
    else Consume([lines[0][|chunks[0]|..]] + lines[1..], chunks[1..])
  }

  /** One event appends the line it finishes or takes the chunk it hands over. */
  lemma {:induction false} StepRefines(s: PtyState, e: Event)
    requires Cooked(s) && StaysCooked([e])
    ensures var s' := Step(s, e);
            && Cooked(s')
            && (!e.SlaveReads? ==> Handed(s, e) == [] && Alpha(s').lines == Alpha(s).lines + Finished(s, e))
            && (e.SlaveReads? && e.n > 0 ==> Finished(s, e) == [] && Alpha(s') == Take(Alpha(s), e.n))
  {
    hide Input, TryRead, Lines, Sum, CookAll, Accepted, Fit;
    assert e in [e];
    StepInv(s, e);
    match e
    case Typed(b) =>
      TypedGrows(s, b);
    case SlaveReads(n) => if n > 0 { ReadFinishesNothing(s, n); }
    case MasterReads(n) => MasterReadOnlyDrains(s, n);
    case Closed(side) => CommitGrows(s.(masterRefs := 0));
    case _ =>
  }

  lemma {:induction false} ReadFinishesNothing(s: PtyState, n: nat)
    requires Cooked(s) && n > 0
    ensures var s' := Step(s, SlaveReads(n));
            Cooked(s') && Alpha(s') == Take(Alpha(s), n) && Finished(s, SlaveReads(n)) == []
  {
    ReadRefines(s, n);
  }

  lemma {:induction false} MasterReadOnlyDrains(s: PtyState, n: nat)
    ensures TryRead(s, Master, n).state == s.(toMaster := TryRead(s, Master, n).state.toMaster)
  {
  }

  lemma {:induction false} CommitGrows(s: PtyState)
    requires Cooked(s)
    ensures var s' := Commit(s);
            |s'.toSlave| >= |s.toSlave| &&
            var line := s'.toSlave[|s.toSlave|..];
            && Cooked(s')
            && (line == [] <==> s'.records == s.records)
            && (line != [] ==> |s'.records| > |s.records|)
            && Alpha(s').lines == Alpha(s).lines + (if line == [] then [] else [line])
  {
    CommitRefines(s);
    var line := Fit(s.toSlave, s.edit);
    assert (s.toSlave + line)[|s.toSlave|..] == line;
    LinesAppend(s.toSlave, s.records, line);
    assert s.toSlave + [] == s.toSlave;
  }

  lemma {:induction false} EchoOnlyEchoes(s: PtyState, key: Key)
    requires s.term.canonical && !key.Data? && (key.EndOfFile? ==> s.edit == [])
    ensures var s' := Press(s, key);
            s'.toSlave == s.toSlave && s'.records == s.records && s'.term == s.term
  {
  }

  lemma {:induction false} InsertOnlyEdits(s: PtyState, b: byte)
    ensures var s' := Insert(s, b); s'.toSlave == s.toSlave && s'.records == s.records && s'.term == s.term
    ensures Cooked(s) ==> Cooked(Insert(s, b)) && Alpha(Insert(s, b)).lines == Alpha(s).lines
  {
  }

  lemma {:induction false} TypedGrows(s: PtyState, b: byte)
    requires Cooked(s)
    ensures var s' := Input(s, b);
            && Cooked(s') && |s'.toSlave| >= |s.toSlave|
            && Alpha(s').lines == Alpha(s).lines +
               (if |s'.records| > |s.records| then [s'.toSlave[|s.toSlave|..]] else [])
  {
    hide Echo, Insert, Commit, Fit, Classify, Lines, Sum;
    TypingRefines(s, b);
    var key := Classify(s.term, b);
    if key.EndOfFile? && s.edit != [] {
      CommitGrows(s);
    } else if key.Data? {
      InsertOnlyEdits(s, key.b);
      CommitGrows(Insert(s, key.b));
    } else {
      EchoOnlyEchoes(s, key);
    }
  }

  /** For every interleaving of typed bytes, reads of any size and everything else a cooked terminal
      goes through: the reader gets the finished lines in order, every chunk lies within one line,
      each byte arrives at most once, and what has not been read is still queued. */
  lemma {:induction false} ReaderSeesLines(s: PtyState, es: seq<Event>)
    requires Cooked(s) && StaysCooked(es)
    ensures Cooked(Run(s, es))
    ensures Consume(Alpha(s).lines + AllFinished(s, es), AllHanded(s, es)) == Some(Alpha(Run(s, es)).lines)
    decreases |es|
  {
    if es == [] {
      assert Alpha(s).lines + [] == Alpha(s).lines;
      return;
    }
    var e, rest := es[0], es[1..];
    assert e in es && StaysCooked([e]);
    StepRefines(s, e);
    ReaderSeesLines(Step(s, e), rest);
    StepConsumes(s, e, AllFinished(Step(s, e), rest), AllHanded(Step(s, e), rest));
  }

  lemma {:induction false} StepConsumes(s: PtyState, e: Event, more: seq<seq<byte>>, chunks: seq<seq<byte>>)
    requires Cooked(s) && StaysCooked([e]) && Cooked(Step(s, e))
    ensures Consume(Alpha(s).lines + (Finished(s, e) + more), Handed(s, e) + chunks) ==
            Consume(Alpha(Step(s, e)).lines + more, chunks)
  {
    StepRefines(s, e);
    var lines := Alpha(s).lines;
    assert lines + (Finished(s, e) + more) == lines + Finished(s, e) + more;
    assert [] + chunks == chunks && lines + [] == lines;
    if e.SlaveReads? && e.n > 0 {
      ReadRefines(s, e.n);
      if s.records != [] {
        FirstLineNotEmpty(s);
        ChunkConsumed(lines, more, e.n, chunks);
      }
    }
  }

  lemma {:induction false} FirstLineNotEmpty(s: PtyState)
    requires Cooked(s) && s.records != []
    ensures Alpha(s).lines != [] && Alpha(s).lines[0] != []
  {
  }

  lemma {:induction false} ChunkConsumed(lines: seq<seq<byte>>, more: seq<seq<byte>>, n: nat, chunks: seq<seq<byte>>)
    requires lines != [] && lines[0] != [] && n > 0
    ensures var c := lines[0][..Min(n, |lines[0]|)];
            Consume(lines + more, [c] + chunks) ==
            Consume(Take(LineQueue(lines, [], false), n).lines + more, chunks)
  {
    var c := lines[0][..Min(n, |lines[0]|)];
    var all := lines + more;
    assert all[0] == lines[0] && all[1..] == lines[1..] + more;
    assert ([c] + chunks)[1..] == chunks;
    if n < |lines[0]| {
      assert [lines[0][n..]] + (lines[1..] + more) == [lines[0][n..]] + lines[1..] + more;
    }
  }

  // ---- The whole run against the abstract machine ----

  /** A cooked terminal as its users see it: a queue of lines, the modes and who is there. */
  datatype Desk = Desk(queue: LineQueue, term: Termios, masterRefs: nat, slaveRefs: nat)

  function View(s: PtyState): Desk
    requires Inv(s)
  {
    Desk(Alpha(s), s.term, s.masterRefs, s.slaveRefs)
  }

  function More(refs: nat): nat { Min(refs + 1, MAX_REFS) }

  function Fewer(refs: nat): nat { if refs == 0 then 0 else refs - 1 }

  /** What an event does to the lines: keys edit them, reads take from the oldest, a hangup finishes the
      line under way, a flush forgets everything, and output has nothing to do with them. */
  function Serve(d: Desk, e: Event): Desk {
    match e
    case Typed(b) => if d.slaveRefs == 0 then d else d.(queue := Apply(d.queue, Classify(d.term, b)))
    case SlaveReads(n) => if n == 0 then d else d.(queue := Take(d.queue, n))
    case SlaveWrites(_) => d
    case MasterReads(_) => d
    case Retuned(t) => d.(term := t)
    case Flushed => d.(queue := LineQueue([], [], false))
    case Opened(side) =>
      if side == Master then d.(masterRefs := More(d.masterRefs)) else d.(slaveRefs := More(d.slaveRefs))
    case Closed(side) =>
      if side == Slave then d.(slaveRefs := Fewer(d.slaveRefs))
      else if d.masterRefs == 1 && d.slaveRefs != 0 then d.(masterRefs := 0, queue := Finish(d.queue))
      else d.(masterRefs := Fewer(d.masterRefs))
  }

  function ServeAll(d: Desk, es: seq<Event>): Desk
    decreases |es|
  {
    if es == [] then d else ServeAll(Serve(d, es[0]), es[1..])
  }

  lemma {:induction false} StepServes(s: PtyState, e: Event)
    requires Cooked(s) && KeepsMode([e])
    ensures Cooked(Step(s, e)) && View(Step(s, e)) == Serve(View(s), e)
  {
    hide Input, TryRead, Lines, Sum, CookAll, Accepted, Commit;
    assert e in [e];
    if e == Flushed {
      FlushServes(s);
      return;
    }
    StepRefines(s, e);
    match e
    case Typed(b) =>
      TypingRefines(s, b);
      InputKeepsModes(s, b);
    case SlaveReads(n) => if n > 0 { ReadKeepsModes(s, n); }
    case MasterReads(n) => MasterReadOnlyDrains(s, n);
    case Closed(side) =>
      if side == Master && s.masterRefs == 1 && s.slaveRefs != 0 {
        CommitRefines(s.(masterRefs := 0));
      }
    case _ =>
  }

  lemma {:induction false} FlushServes(s: PtyState)
    requires Cooked(s)
    ensures Cooked(FlushInput(s)) && View(FlushInput(s)) == View(s).(queue := LineQueue([], [], false))
  {
  }

  lemma {:induction false} InputKeepsModes(s: PtyState, b: byte)
    ensures var t := Input(s, b); t.term == s.term && t.masterRefs == s.masterRefs && t.slaveRefs == s.slaveRefs
  {
  }

  lemma {:induction false} ReadKeepsModes(s: PtyState, n: nat)
    ensures var t := TryRead(s, Slave, n).state;
            t.term == s.term && t.masterRefs == s.masterRefs && t.slaveRefs == s.slaveRefs
  {
  }

  /** The flat queue with its record lengths is the queue of lines, over every run of a cooked terminal,
      of any length and with any amount of typing: overflow, flushes and hangups included. */
  lemma {:induction false} RunRefines(s: PtyState, es: seq<Event>)
    requires Cooked(s) && KeepsMode(es)
    ensures Cooked(Run(s, es)) && View(Run(s, es)) == ServeAll(View(s), es)
    decreases |es|
  {
    hide Cooked, View, Serve, Step;
    if es != [] {
      assert es[0] in es && KeepsMode([es[0]]);
      StepServes(s, es[0]);
      RunRefines(Step(s, es[0]), es[1..]);
    }
  }

  // ---- Which lines are finished does not depend on how they are read ----

  /** The lines a cooked terminal makes of `bytes`, starting from a half-edited line: editing alone, by the
      terminal's characters, with no queue, no capacity and no reader. */
  function EditedLines(t: Termios, edit: seq<byte>, bytes: seq<byte>): seq<seq<byte>>
    decreases |bytes|
  {
    if bytes == [] then [] else
    var b, rest := bytes[0], bytes[1..];
    var c: byte := if t.icrnl && b == 13 then 10 else b;
    if Signals(t, b) then EditedLines(t, [], rest)
    else if Erases(t, c) then EditedLines(t, if edit == [] then [] else edit[..|edit| - 1], rest)
    else if c == t.cc[VKILL] && c != 0 then EditedLines(t, [], rest)
    else if c == t.cc[VEOF] && c != 0 then (if edit == [] then [] else [edit]) + EditedLines(t, [], rest)
    else
      var edit' := if |edit| < CANON_BUF then edit + [c] else edit;
      if c == 10 then [edit'] + EditedLines(t, [], rest) else EditedLines(t, edit', rest)
  }

  function TypedBytes(es: seq<Event>): seq<byte> {
    if es == [] then []
    else (if es[0].Typed? then [es[0].b] else []) + TypedBytes(es[1..])
  }

  predicate Conversation(es: seq<Event>) {
    forall e | e in es :: e.Typed? || e.SlaveReads? || e.SlaveWrites? || e.MasterReads?
  }

  /** Whenever a byte is typed, the line under way still fits the queue. */
  predicate Roomy(s: PtyState, es: seq<Event>)
    decreases |es|
  {
    es == [] ||
    ((es[0].Typed? ==> |s.toSlave| + |s.edit| < PTY_BUF) && Roomy(Step(s, es[0]), es[1..]))
  }

  /** As long as the reader keeps up, so that the line under way fits the queue, the finished lines are
      the edited lines of the typed bytes, however much is typed and however reads and output are
      interleaved with the typing. */
  lemma {:induction false} FinishedLinesAreEditedLines(s: PtyState, es: seq<Event>)
    requires Cooked(s) && s.slaveRefs > 0 && Conversation(es) && Roomy(s, es)
    ensures AllFinished(s, es) == EditedLines(s.term, s.edit, TypedBytes(es))
    decreases |es|
  {
    hide Cooked, Step, Finished, EditedLines;
    if es != [] {
      var e, rest := es[0], es[1..];
      assert e in es && Conversation([e]);
      ConversationStep(s, e, TypedBytes(rest));
      FinishedLinesAreEditedLines(Step(s, e), rest);
    } else {
      EditedNothing(s.term, s.edit);
    }
  }

  lemma {:induction false} EditedNothing(t: Termios, edit: seq<byte>)
    ensures EditedLines(t, edit, []) == []
  {
  }

  lemma {:induction false} ConversationStep(s: PtyState, e: Event, more: seq<byte>)
    requires Cooked(s) && s.slaveRefs > 0 && Conversation([e]) && (e.Typed? ==> |s.toSlave| + |s.edit| < PTY_BUF)
    ensures var s' := Step(s, e);
            && Cooked(s') && s'.slaveRefs == s.slaveRefs && s'.term == s.term
            && EditedLines(s.term, s.edit, (if e.Typed? then [e.b] else []) + more) ==
               Finished(s, e) + EditedLines(s.term, s'.edit, more)
  {
    hide Input, TryRead, EditedLines, CookAll, Accepted, Sum;
    assert e in [e];
    StepRefines(s, e);
    assert [] + more == more && [] + EditedLines(s.term, s.edit, more) == EditedLines(s.term, s.edit, more);
    match e
    case Typed(b) =>
      InputKeepsModes(s, b);
      KeyEffect(s, b, more);
    case SlaveReads(n) => if n > 0 { ReadKeepsModes(s, n); }
    case MasterReads(n) => MasterReadOnlyDrains(s, n);
    case SlaveWrites(_) =>
  }

  lemma {:induction false} KeyOf(t: Termios, b: byte)
    requires t.canonical
    ensures var c: byte := if t.icrnl && b == 13 then 10 else b;
            if Signals(t, b) then Classify(t, b).Interrupt?
            else if Erases(t, c) then Classify(t, b) == Erase
            else if c == t.cc[VKILL] && c != 0 then Classify(t, b) == Kill
            else if c == t.cc[VEOF] && c != 0 then Classify(t, b) == EndOfFile
            else Classify(t, b) == Data(c)
  {
  }

  /** One key on a terminal with room for the whole half-edited line. */
  lemma {:induction false} KeyEffect(s: PtyState, b: byte, rest: seq<byte>)
    requires Cooked(s) && s.slaveRefs > 0 && |s.toSlave| + |s.edit| < PTY_BUF
    ensures EditedLines(s.term, s.edit, [b] + rest) ==
            Finished(s, Typed(b)) + EditedLines(s.term, Input(s, b).edit, rest)
  {
    hide Classify, Inv, Echo, Commit, Fit;
    KeyOf(s.term, b);
    var key := Classify(s.term, b);
    assert ([b] + rest)[1..] == rest;
    if key.EndOfFile? && s.edit != [] {
      CommitFinishes(s);
    } else if key.Data? && key.b == NL {
      CommitFinishes(Insert(s, NL));
    }
  }

  lemma {:induction false} CommitFinishes(s: PtyState)
    requires |s.toSlave| + |s.edit| <= PTY_BUF && s.edit != []
    ensures var s' := Commit(s); |s'.records| > |s.records| && s'.toSlave[|s.toSlave|..] == s.edit
  {
  }

  // ---- All modes: the slave's input is one first-in first-out byte stream ----

  function Flat(chunks: seq<seq<byte>>): seq<byte> {
    if chunks == [] then [] else chunks[0] + Flat(chunks[1..])
  }

  function Queued(s: PtyState, e: Event): seq<byte> {
    var s' := Step(s, e);
    if |s'.toSlave| <= |s.toSlave| then [] else s'.toSlave[|s.toSlave|..]
  }

  function AllQueued(s: PtyState, es: seq<Event>): seq<byte>
    decreases |es|
  {
    if es == [] then [] else Queued(s, es[0]) + AllQueued(Step(s, es[0]), es[1..])
  }

  lemma {:induction false} InputOnlyAppends(s: PtyState, b: byte)
    ensures s.toSlave <= Input(s, b).toSlave
  {
    var key := Classify(s.term, b);
    if key.Data? {
      InsertOnlyEdits(s, key.b);
    }
  }

  lemma {:induction false} StepIsFifo(s: PtyState, e: Event)
    requires e != Flushed
    ensures Flat(Handed(s, e)) + Step(s, e).toSlave == s.toSlave + Queued(s, e)
  {
    hide Input, CookAll, Accepted, TryRead, Commit;
    match e
    case Typed(b) => InputOnlyAppends(s, b);
    case SlaveReads(n) =>
      if n > 0 {
        ReadTakesFront(s, n);
      }
    case MasterReads(n) => MasterReadLeavesInput(s, n);
    case _ =>
  }

  lemma {:induction false} ReadTakesFront(s: PtyState, n: nat)
    ensures var r := TryRead(s, Slave, n); r.data + r.state.toSlave == s.toSlave && Flat([r.data]) == r.data
  {
    var r := TryRead(s, Slave, n);
    assert Flat([r.data]) == r.data + Flat([]);
  }

  lemma {:induction false} MasterReadLeavesInput(s: PtyState, n: nat)
    ensures TryRead(s, Master, n).state.toSlave == s.toSlave
  {
  }

  lemma {:induction false} FlatConcat(a: seq<seq<byte>>, b: seq<seq<byte>>)
    requires |a| <= 1
    ensures Flat(a + b) == Flat(a) + Flat(b)
  {
    if a == [] {
      assert a + b == b;
    } else {
      assert (a + b)[1..] == b && a[1..] == [];
    }
  }

  lemma {:induction false} Splice(h: seq<byte>, hs: seq<byte>, start: seq<byte>, mid: seq<byte>, end: seq<byte>,
               q: seq<byte>, qs: seq<byte>)
    requires h + mid == start + q && hs + end == mid + qs
    ensures (h + hs) + end == start + (q + qs)
  {
    calc {
      (h + hs) + end;
      h + (hs + end);
      (h + mid) + qs;
      (start + q) + qs;
      start + (q + qs);
    }
  }

  /** Without a flush, whatever the modes and however often they change: the bytes handed over so
      far followed by the queue are the old queue followed by everything queued since. */
  lemma {:induction false} SlaveInputIsFifo(s: PtyState, es: seq<Event>)
    requires Flushed !in es
    ensures Flat(AllHanded(s, es)) + Run(s, es).toSlave == s.toSlave + AllQueued(s, es)
    decreases |es|
  {
    if es != [] {
      var e, rest := es[0], es[1..];
      var s' := Step(s, e);
      SlaveInputIsFifo(s', rest);
      StepIsFifo(s, e);
      FlatConcat(Handed(s, e), AllHanded(s', rest));
      Splice(Flat(Handed(s, e)), Flat(AllHanded(s', rest)), s.toSlave, s'.toSlave, Run(s', rest).toSlave,
             Queued(s, e), AllQueued(s', rest));
    }
  }

  // ---- A switch from raw to cooked mode ----

  predicate Ordinary(t: Termios, b: byte) { Classify(t, b) == Data(b) }

  /** The first read after typing the two-byte line `b NL`. */
  function FirstRead(s: PtyState, b: byte): seq<byte> {
    TryRead(Input(Input(s, b), NL), Slave, 2).data
  }

  /** Going from raw to cooked mode, the reader gets the lines typed afterwards if and only if the
      switch finds the queue empty: leftover raw bytes have no record and sit before the line. */
  lemma {:induction false} SwitchKeepsLinesIffQueueEmpty(s: PtyState, t: Termios, x: byte, y: byte)
    requires Inv(s) && !s.term.canonical && t.canonical
    requires Ordinary(t, x) && Ordinary(t, y) && Ordinary(t, NL) && x != NL && y != NL && x != y
    ensures s.toSlave == [] <==> Cooked(SetTermios(s, t))
    ensures s.toSlave == [] <==>
              FirstRead(SetTermios(s, t), x) == [x, NL] && FirstRead(SetTermios(s, t), y) == [y, NL]
  {
    hide FirstRead, Classify;
    var s1 := SetTermios(s, t);
    FirstReadAfterLeftover(s1, x);
    FirstReadAfterLeftover(s1, y);
    BehindLeftover(s.toSlave, x);
    BehindLeftover(s.toSlave, y);
  }

  lemma {:induction false} BehindLeftover(q: seq<byte>, b: byte)
    requires |q| <= PTY_BUF
    ensures var line := Fit(q, [b, NL]); var got := (q + line)[..|line|];
            (q == [] ==> got == [b, NL]) && (q != [] && got != [] ==> got[0] == q[0])
  {
    var line := Fit(q, [b, NL]);
    assert q == [] ==> (q + line)[..|line|] == line;
  }

  lemma {:induction false} FirstReadAfterLeftover(s: PtyState, b: byte)
    requires Inv(s) && s.term.canonical && s.edit == [] && s.records == [] && !s.eofPending
    requires Ordinary(s.term, b) && Ordinary(s.term, NL) && b != NL
    ensures var line := Fit(s.toSlave, [b, NL]);
            FirstRead(s, b) == (s.toSlave + line)[..|line|]
  {
    hide Classify, Echo, Commit, Fit;
    var s1 := Insert(s, b);
    assert Input(s, b) == s1 && s1.edit == [b];
    assert Input(s1, NL) == Commit(Insert(s1, NL)) && Insert(s1, NL).edit == [b, NL];
    ReadsBackFirst(Insert(s1, NL));
  }

  lemma {:induction false} ReadsBackFirst(s: PtyState)
    requires s.term.canonical && s.records == [] && !s.eofPending && |s.edit| == 2
    ensures var line := Fit(s.toSlave, s.edit);
            TryRead(Commit(s), Slave, 2).data == (s.toSlave + line)[..|line|]
  {
    var line := Fit(s.toSlave, s.edit);
    assert line == [] ==> (s.toSlave + line)[..|line|] == [];
    assert Commit(s).records == if line == [] then [] else [|line|];
  }

  // ---- End-of-file, polling and blocking ----

  /** Read `k` whole records. */
  function Drain(s: PtyState, k: nat): PtyState
    decreases k
  {
    if k == 0 then s else Drain(TryRead(s, Slave, PTY_BUF).state, k - 1)
  }

  lemma {:induction false} DrainDropsLines(s: PtyState, k: nat)
    requires Cooked(s) && k <= |s.records|
    ensures var s' := Drain(s, k);
            Cooked(s') && s'.eofPending == s.eofPending && s'.records == s.records[k..] && s'.masterRefs == s.masterRefs
    decreases k
  {
    if k > 0 {
      var s1 := TryRead(s, Slave, PTY_BUF).state;
      ReadInv(s, PTY_BUF);
      ReadRefines(s, PTY_BUF);
      assert s1.records == s.records[1..];
      DrainDropsLines(s1, k - 1);
    }
  }

  /** What makes an event finish a line, before it happens: there is room in the queue, and a newline is
      typed, or an end-of-file behind a half-edited line, or the master hangs up on one. */
  predicate FinishesLine(s: PtyState, e: Event) {
    && |s.toSlave| < PTY_BUF
    && match e
       case Typed(b) =>
         && s.slaveRefs > 0
         && (Classify(s.term, b) == Data(NL) || (Classify(s.term, b) == EndOfFile && s.edit != []))
       case Closed(side) => side == Master && s.masterRefs == 1 && s.slaveRefs != 0 && s.edit != []
       case _ => false
  }

  predicate NoLineFinished(s: PtyState, es: seq<Event>)
    decreases |es|
  {
    es == [] || (!FinishesLine(s, es[0]) && NoLineFinished(Step(s, es[0]), es[1..]))
  }

  /** How many of the oldest `k` lines are left after an event: a read that empties one takes it away. */
  function OldLeft(s: PtyState, e: Event, k: nat): nat {
    if e.SlaveReads? && e.n > 0 && k > 0 && s.records != [] && e.n >= s.records[0] then k - 1 else k
  }

  function AllOldLeft(s: PtyState, es: seq<Event>, k: nat): nat
    decreases |es|
  {
    if es == [] then k else AllOldLeft(Step(s, es[0]), es[1..], OldLeft(s, es[0], k))
  }

  /** The reader is still busy with the oldest `k` lines whenever it reads. */
  predicate ReadsOldOnly(s: PtyState, es: seq<Event>, k: nat)
    decreases |es|
  {
    es == [] ||
    ((es[0].SlaveReads? && es[0].n > 0 ==> k > 0) && ReadsOldOnly(Step(s, es[0]), es[1..], OldLeft(s, es[0], k)))
  }

  lemma {:induction false} CommitFinishesIff(s: PtyState)
    ensures Commit(s).records != s.records <==> |s.toSlave| < PTY_BUF && s.edit != []
  {
  }

  lemma {:induction false} FinishesIff(s: PtyState, e: Event)
    requires Cooked(s) && StaysCooked([e]) && !e.SlaveReads?
    ensures s.records <= Step(s, e).records && (s.eofPending ==> Step(s, e).eofPending)
    ensures Step(s, e).records != s.records <==> FinishesLine(s, e)
  {
    hide Classify, Echo, CookAll, Accepted, Commit, Sum;
    assert e in [e];
    CommitFinishesIff(s.(masterRefs := 0));
    CommitFinishesIff(s);
    CommitFinishesIff(Insert(s, NL));
  }

  lemma {:induction false} ReadLeaves(s: PtyState, n: nat, k: nat)
    requires Cooked(s) && n > 0 && 0 < k <= |s.records|
    ensures var t := TryRead(s, Slave, n).state;
            t.eofPending == s.eofPending && |t.records| - OldLeft(s, SlaveReads(n), k) == |s.records| - k
  {
  }

  /** While the reader is busy with the oldest `k` lines, the lines behind them become more exactly if an
      event finishes one. */
  lemma {:induction false} LaterLinesIffFinished(s: PtyState, es: seq<Event>, k: nat)
    requires Cooked(s) && StaysCooked(es) && k <= |s.records| && ReadsOldOnly(s, es, k)
    ensures var t, left := Run(s, es), AllOldLeft(s, es, k);
            && Cooked(t) && left <= |t.records| && |t.records| - left >= |s.records| - k
            && (s.eofPending ==> t.eofPending)
            && (|t.records| - left == |s.records| - k <==> NoLineFinished(s, es))
    decreases |es|
  {
    hide FinishesLine, Cooked, TryRead, Input, SetTermios, AddRef, CloseRef, CookAll;
    if es != [] {
      var e := es[0];
      assert e in es && StaysCooked([e]) && KeepsMode([e]);
      StepServes(s, e);
      if e.SlaveReads? {
        ReadFinishesNone(s, e);
        if e.n > 0 {
          ReadLeaves(s, e.n, k);
        }
      } else {
        FinishesIff(s, e);
      }
      LaterLinesIffFinished(Step(s, e), es[1..], OldLeft(s, e, k));
    }
  }

  lemma {:induction false} ReadFinishesNone(s: PtyState, e: Event)
    requires e.SlaveReads?
    ensures !FinishesLine(s, e)
  {
  }

  /** An end-of-file typed on an empty line is meant to be read right after the lines queued before it.
      Whatever happens while the reader works through those lines, it is exactly if none of it finishes
      a line: a later line overtakes the latched end-of-file. */
  lemma {:induction false} EofInOrderIffNoLaterLine(s: PtyState, es: seq<Event>, n: nat)
    requires Cooked(s) && s.eofPending && StaysCooked(es) && ReadsOldOnly(s, es, |s.records|) && n > 0
    ensures var r := TryRead(Drain(Run(s, es), AllOldLeft(s, es, |s.records|)), Slave, n);
            (r.data == [] && r.eof) <==> NoLineFinished(s, es)
  {
    hide Run, NoLineFinished, AllOldLeft, ReadsOldOnly, Sum, Lines, TryRead;
    LaterLinesIffFinished(s, es, |s.records|);
    DrainDropsLines(Run(s, es), AllOldLeft(s, es, |s.records|));
    DrainedRead(Drain(Run(s, es), AllOldLeft(s, es, |s.records|)), n);
  }

  lemma {:induction false} DrainedRead(s: PtyState, n: nat)
    requires Cooked(s) && s.eofPending && n > 0
    ensures var r := TryRead(s, Slave, n); (r.data == [] && r.eof) <==> s.records == []
  {
  }

  /** With both sides closed the slot is free: a poll of it says not ready, a read returns nothing. */
  predicate Released(s: PtyState) { s.masterRefs == 0 && s.slaveRefs == 0 }

  predicate Polled(s: PtyState, side: Side) { !Released(s) && Readable(s, side) }

  /** What a read by a foreground caller that may block returns. */
  function Waited(s: PtyState, side: Side, n: nat, expired: bool): Outcome {
    if Released(s) then Bytes([]) else ReadOutcome(s, side, n, false, false, expired)
  }

  /** In every reachable state of a terminal, for a foreground caller that may block: poll and read agree
      exactly on a master and on a cooked slave; on a raw slave a read blocks exactly when poll says not
      readable, unless VMIN is zero and the timer is off or over. On a released slot they never agree. */
  lemma {:induction false} PollAgreesWithRead(es: seq<Event>, n: nat, expired: bool)
    requires n > 0
    ensures var s := Run(Fresh(), es);
            (Polled(s, Master) <==> Waited(s, Master, n, expired) != WouldBlock) <==> !Released(s)
    ensures var s := Run(Fresh(), es);
            s.term.canonical ==>
              ((Polled(s, Slave) <==> Waited(s, Slave, n, expired) != WouldBlock) <==> !Released(s))
    ensures var s := Run(Fresh(), es);
            !s.term.canonical && !Released(s) ==>
              (Waited(s, Slave, n, expired) == WouldBlock <==>
               !Polled(s, Slave) && !(s.term.cc[VMIN] == 0 && (s.term.cc[VTIME] == 0 || expired)))
  {
    ReachableInv(es);
    var s := Run(Fresh(), es);
    if s.term.canonical && s.records != [] {
      assert TryRead(s, Slave, n).data == s.toSlave[..Min(n, s.records[0])];
    }
  }

  // ---- Flushing and reference counts ----

  /** Nothing queued, half-edited or latched before a flush is ever read: whatever is handed over later
      was queued later. */
  lemma {:induction false} FlushForgets(s: PtyState, es: seq<Event>)
    requires Flushed !in es
    ensures Flat(AllHanded(FlushInput(s), es)) <= AllQueued(FlushInput(s), es)
    ensures FlushInput(s).edit == [] && !FlushInput(s).eofPending && FlushInput(s).toMaster == s.toMaster
  {
    hide Flat, AllHanded, AllQueued, Run;
    var t := FlushInput(s);
    SlaveInputIsFifo(t, es);
    assert [] + AllQueued(t, es) == AllQueued(t, es);
  }

  function Refs(s: PtyState, side: Side): nat { if side == Master then s.masterRefs else s.slaveRefs }

  /** Closing undoes opening on a side that is open, exactly until the count saturates. */
  lemma {:induction false} CloseUndoesOpenIff(s: PtyState, side: Side)
    requires 0 < Refs(s, side) <= 65535
    ensures CloseRef(AddRef(s, side), side) == s <==> Refs(s, side) < 65535
  {
  }

  /** Section 11.1.7 of POSIX.1-2017 makes a blocking raw read with MIN > 0 wait for MIN bytes (or
      the buffer's worth). Here it returns whatever is queued: it gets that many if and only if
      they were queued before the call. */
  lemma {:induction false} RawReadReachesMinIffQueued(s: PtyState, n: nat, expired: bool)
    requires !s.term.canonical && n > 0 && s.term.cc[VMIN] > 0 && s.toSlave != []
    ensures var r := ReadOutcome(s, Slave, n, false, false, expired);
            r.Bytes? && (|r.data| >= Min(s.term.cc[VMIN], n) <==> |s.toSlave| >= Min(s.term.cc[VMIN], n))
  {
  }

  /** Poll promises a writable slave that a write will not block. It is broken exactly by a newline
      that would expand to two bytes when one byte of room is left. */
  lemma {:induction false} WritableSlaveBlocksIff(s: PtyState, data: seq<byte>)
    requires Inv(s) && Writable(s, Slave) && data != []
    ensures WriteOutcome(s, Slave, data, false, false) == WriteWouldBlock <==>
              |s.toMaster| == PTY_BUF - 1 && s.term.opost && s.term.onlcr && data[0] == NL
  {
  }

  /** A raw terminal is transparent: without signal characters in the data, the master's bytes enter
      the queue in order (CR mapped if asked for), as many as there is room for. */
  lemma {:induction false} RawWriteIsTransparent(s: PtyState, data: seq<byte>)
    requires Inv(s) && !s.term.canonical && s.slaveRefs > 0
    requires forall b | b in data :: Classify(s.term, b).Data?
    ensures var w := WriteMaster(s, data);
            && w.written == Min(|data|, PTY_BUF - |s.toSlave|) && w.signals == []
            && w.state.toSlave ==
               s.toSlave + seq(w.written, i requires 0 <= i < w.written <= |data| => Translate(s.term, data[i]))
    decreases |data|
  {
    if data != [] && |s.toSlave| < PTY_BUF {
      assert data[0] in data;
      TypedInv(s, data[0]);
      var s' := Input(s, data[0]);
      var w := WriteMaster(s', data[1..]);
      RawWriteIsTransparent(s', data[1..]);
      assert s'.toSlave == s.toSlave + [Translate(s.term, data[0])];
    }
  }
}
