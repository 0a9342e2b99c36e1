/** Terminals that break a promise, each reached from a fresh one by a handful of events. The exact
    conditions behind them are in `PtyProofs`. */
module PtyWitnesses {

  import opened Common
  import opened Pty
  import opened PtyProofs

  const A: byte := 97
  const B: byte := 98
  const END: byte := 4
  const COOKED: Termios := Fresh().term
  const RAW: Termios := COOKED.(canonical := false)
  const RAW_MIN_2: Termios := RAW.(cc := RAW.cc[VMIN := 2])

  lemma {:induction false} RunFirst(s: PtyState, e: Event, rest: seq<Event>)
    ensures Run(s, [e] + rest) == Run(Step(s, e), rest)
  {
    assert ([e] + rest)[1..] == rest;
  }

  lemma {:induction false} RunThree(s: PtyState, e: Event, f: Event, g: Event)
    ensures Run(s, [e, f, g]) == Step(Step(Step(s, e), f), g)
  {
    assert [e, f, g] == [e] + [f, g] && [f, g] == [f] + [g] && [g] == [g] + [];
    RunFirst(s, e, [f, g]);
    RunFirst(Step(s, e), f, [g]);
    RunFirst(Step(Step(s, e), f), g, []);
  }

  lemma {:induction false} Keys()
    ensures Ordinary(COOKED, A) && Ordinary(COOKED, B) && Ordinary(COOKED, NL) && Classify(COOKED, END) == EndOfFile
    ensures Ordinary(RAW, A) && Ordinary(RAW_MIN_2, A)
  {
  }

  /** A byte typed in raw mode on a fresh terminal, whatever it does with the echo. */
  lemma {:induction false} TypedRaw(t: Termios)
    requires !t.canonical && Ordinary(t, A)
    ensures var s := Step(Step(Fresh(), Retuned(t)), Typed(A));
            s.toSlave == [A] && s.records == [] && s.edit == [] && !s.eofPending && s.term == t && s.slaveRefs > 0
    ensures Inv(Step(Step(Fresh(), Retuned(t)), Typed(A)))
  {
    hide Classify, Echo, Fit;
    var s := Step(Fresh(), Retuned(t));
    assert s.toSlave == [] + Fit([], []) && Fit([], []) == [] by { FitNothing(); }
    StepInv(Fresh(), Retuned(t));
    StepInv(s, Typed(A));
  }

  lemma {:induction false} FitNothing()
    ensures Fit([], []) == []
  {
  }

  /** Raw mode, one byte, cooked mode, the line "b": the read that should get the line gets the byte
      and half of it. */
  lemma {:induction false} RawByteSpoilsLine()
    ensures FirstRead(Run(Fresh(), [Retuned(RAW), Typed(A), Retuned(COOKED)]), B) == [A, B]
  {
    hide Classify, FirstRead, Step;
    Keys();
    RunThree(Fresh(), Retuned(RAW), Typed(A), Retuned(COOKED));
    TypedRaw(RAW);
    var s := Step(Step(Fresh(), Retuned(RAW)), Typed(A));
    BackToCooked(s);
    StepInv(s, Retuned(COOKED));
    FirstReadAfterLeftover(Step(s, Retuned(COOKED)), B);
    assert ([A] + [B, NL])[..2] == [A, B];
  }

  lemma {:induction false} BackToCooked(s: PtyState)
    requires !s.term.canonical
    ensures Step(s, Retuned(COOKED)) == s.(term := COOKED)
  {
  }

  /** End-of-file on an empty line, then the line "a": the line is read first. */
  lemma {:induction false} LineOvertakesEof()
    ensures var s := Run(Fresh(), [Typed(END), Typed(A), Typed(NL)]);
            s.eofPending && TryRead(s, Slave, 2).data == [A, NL] && !TryRead(s, Slave, 2).eof
  {
    hide Classify, Echo, Commit, TryRead;
    Keys();
    RunThree(Fresh(), Typed(END), Typed(A), Typed(NL));
    var s1 := Step(Fresh(), Typed(END));
    var s2 := Step(s1, Typed(A));
    assert s2 == Insert(s1, A) && s2.edit == [A];
    var s3 := Insert(s2, NL);
    assert Step(s2, Typed(NL)) == Commit(s3) && s3.edit == [A, NL];
    FirstLine(s3);
  }

  lemma {:induction false} FirstLine(s: PtyState)
    requires s.term.canonical && s.toSlave == [] && s.records == [] && |s.edit| == 2
    ensures TryRead(Commit(s), Slave, 2).data == s.edit && !TryRead(Commit(s), Slave, 2).eof
  {
    assert [] + s.edit == s.edit && s.edit[..2] == s.edit && [] + [2] == [2];
  }

  /** Raw mode with VMIN 2 and one byte typed: a blocking read of two returns one. */
  lemma {:induction false} RawReadFallsShort()
    ensures var s := Run(Fresh(), [Retuned(RAW_MIN_2), Typed(A), MasterReads(1)]);
            s.term.cc[VMIN] == 2 && ReadOutcome(s, Slave, 2, false, false, false) == Bytes([A])
  {
    hide Classify, Inv, Input, SetTermios;
    Keys();
    RunThree(Fresh(), Retuned(RAW_MIN_2), Typed(A), MasterReads(1));
    TypedRaw(RAW_MIN_2);
    assert [A][..1] == [A];
  }

  lemma {:induction false} PlainCooks(t: Termios, data: seq<byte>)
    requires NL !in data
    ensures CookAll(t, data) == data
    decreases |data|
  {
    if data != [] {
      var n := |data| - 1;
      PlainCooks(t, data[..n]);
      assert data == data[..n] + [data[n]];
    }
  }

  lemma {:induction false} PlainAccepted(t: Termios, data: seq<byte>, room: nat)
    requires NL !in data && |data| <= room
    ensures Accepted(t, data, room) == |data|
    decreases |data|
  {
    if data != [] {
      PlainAccepted(t, data[1..], room - 1);
    }
  }

  /** All but one byte of the master's queue filled: the slave is polled writable and a newline blocks. */
  lemma {:induction false} WritableSlaveBlocks()
    ensures var s := Run(Fresh(), [SlaveWrites(seq(PTY_BUF - 1, i => A))]);
            Writable(s, Slave) && WriteOutcome(s, Slave, [NL], false, false) == WriteWouldBlock
  {
    hide CookAll, Accepted, Inv;
    var data := seq(PTY_BUF - 1, i => A);
    PlainCooks(COOKED, data);
    PlainAccepted(COOKED, data, PTY_BUF);
    assert [SlaveWrites(data)] == [SlaveWrites(data)] + [];
    RunFirst(Fresh(), SlaveWrites(data), []);
    assert data[..|data|] == data && [] + data == data;
    ReachableInv([SlaveWrites(data)]);
    WritableSlaveBlocksIff(Step(Fresh(), SlaveWrites(data)), [NL]);
  }
}
