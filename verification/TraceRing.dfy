/** One per-CPU trace ring. The writer stores an event field by field and publishes it with a final
    store of its sequence number; a reader on another CPU loads the sequence, the fields, and the
    sequence again, with no lock between them.

    Assumptions: one writer per ring that is not interrupted by another writer of the same ring,
    sequentially consistent atomics, and no wrap of the 32-bit sequence. */
module TraceRing {

  const TRACE_LEN: nat := 64
  const FIELDS: nat := 6   // tsc, kind, a, b, c, d

  type Event = e: seq<nat> | |e| == FIELDS witness [0, 0, 0, 0, 0, 0]

  datatype Entry = Entry(sequence: nat, fields: Event)

  /** The writer has computed its sequence number, stored it in `head`, or cleared the entry and
      stored `k` fields. */
  datatype Writer =
    | Idle
    | Chosen(sequence: nat, event: Event)
    | HeadStored(sequence: nat, event: Event)
    | Storing(sequence: nat, event: Event, k: nat)

  /** The reader saw `sequence` in its entry and has loaded the first fields. */
  datatype Reader = Looking | Loading(sequence: nat, loaded: seq<nat>)

  datatype State = State(
    head: nat,
    entries: seq<Entry>,
    writer: Writer,
    reader: Reader,
    log: seq<Event>,                    // every event, in order: log[s - 1] got sequence s
    printed: set<(nat, seq<nat>)>)      // everything the reader has accepted

  function Index(sequence: nat): nat { sequence % TRACE_LEN }

  datatype Action =
    | Choose(event: Event)
    | StoreHead
    | ClearSequence
    | StoreField
    | Publish
    | LoadBefore(sequence: nat)
    | LoadField
    | LoadAfter

  predicate Enabled(s: State, a: Action) {
    && |s.entries| == TRACE_LEN
    && match a
       case Choose(_) => s.writer == Idle
       case StoreHead => s.writer.Chosen?
       case ClearSequence => s.writer.HeadStored?
       case StoreField => s.writer.Storing? && s.writer.k < FIELDS
       case Publish => s.writer.Storing? && s.writer.k == FIELDS
       case LoadBefore(seq_) => s.reader == Looking && seq_ > 0
       case LoadField => s.reader.Loading? && |s.reader.loaded| < FIELDS
       case LoadAfter => s.reader.Loading? && |s.reader.loaded| == FIELDS
  }

  function SetEntry(s: State, sequence: nat, e: Entry): State
    requires |s.entries| == TRACE_LEN
  {
    s.(entries := s.entries[Index(sequence) := e])
  }

  function Step(s: State, a: Action): State
    requires Enabled(s, a)
  {
    match a
    case Choose(e) => s.(writer := Chosen(s.head + 1, e), log := s.log + [e])
    case StoreHead => s.(head := s.writer.sequence, writer := HeadStored(s.writer.sequence, s.writer.event))
    case ClearSequence =>
      var w := s.writer;
      SetEntry(s, w.sequence, s.entries[Index(w.sequence)].(sequence := 0)).(writer := Storing(w.sequence, w.event, 0))
    case StoreField =>
      var w := s.writer;
      var e := s.entries[Index(w.sequence)];
      SetEntry(s, w.sequence, e.(fields := e.fields[w.k := w.event[w.k]])).(writer := w.(k := w.k + 1))
    case Publish =>
      var w := s.writer;
      SetEntry(s, w.sequence, s.entries[Index(w.sequence)].(sequence := w.sequence)).(writer := Idle)
    case LoadBefore(sequence) =>
      s.(reader := if s.entries[Index(sequence)].sequence == sequence then Loading(sequence, []) else Looking)
    case LoadField =>
      var r := s.reader;
      s.(reader := r.(loaded := r.loaded + [s.entries[Index(r.sequence)].fields[|r.loaded|]]))
    case LoadAfter =>
      var r := s.reader;
      s.(reader := Looking,
         printed := if s.entries[Index(r.sequence)].sequence == r.sequence
                    then s.printed + {(r.sequence, r.loaded)} else s.printed)
  }

  predicate Init(s: State) {
    && s.head == 0 && s.writer == Idle && s.reader == Looking && s.log == [] && s.printed == {}
    && |s.entries| == TRACE_LEN
    && forall i | 0 <= i < TRACE_LEN :: s.entries[i].sequence == 0
  }

  // ---- Invariant ----

  /** How many events have been published. */
  function Published(s: State): nat {
    if s.writer == Idle || |s.log| == 0 then |s.log| else |s.log| - 1
  }

  predicate WriterInv(s: State)
    requires |s.entries| == TRACE_LEN
  {
    match s.writer
    case Idle => |s.log| == s.head
    case Chosen(n, e) => n == s.head + 1 == |s.log| && s.log[n - 1] == e
    case HeadStored(n, e) => n == s.head == |s.log| > 0 && s.log[n - 1] == e
    case Storing(n, e, k) =>
      && n == s.head == |s.log| > 0 && s.log[n - 1] == e && k <= FIELDS
      && s.entries[Index(n)].sequence == 0
      && s.entries[Index(n)].fields[..k] == e[..k]
  }

  /** A published entry carries exactly the event of its sequence number. */
  predicate EntryInv(s: State, i: nat)
    requires i < |s.entries|
  {
    var e := s.entries[i];
    e.sequence != 0 ==>
      e.sequence <= Published(s) <= |s.log| && Index(e.sequence) == i && e.fields == s.log[e.sequence - 1]
  }

  /** While the entry still shows the sequence the reader started with, the loads were of its event. */
  predicate ReaderInv(s: State)
    requires |s.entries| == TRACE_LEN
  {
    s.reader.Loading? ==>
      var r := s.reader;
      && 0 < r.sequence <= Published(s) <= |s.log| && |r.loaded| <= FIELDS
      && (s.entries[Index(r.sequence)].sequence == r.sequence ==>
            r.loaded == s.log[r.sequence - 1][..|r.loaded|])
  }

  /** An event stays in its entry until the event a whole ring later is started. */
  predicate Retained(s: State, n: nat)
    requires |s.entries| == TRACE_LEN
  {
    0 < n <= Published(s) && |s.log| - TRACE_LEN < n ==> s.entries[Index(n)].sequence == n
  }

  ghost predicate Inv(s: State) {
    && |s.entries| == TRACE_LEN
    && (forall n :: Retained(s, n))
    && WriterInv(s)
    && (forall i | 0 <= i < TRACE_LEN :: EntryInv(s, i))
    && ReaderInv(s)
    && (forall p | p in s.printed :: 0 < p.0 <= |s.log| && p.1 == s.log[p.0 - 1])
  }

  lemma {:induction false} StepRetains(s: State, a: Action)
    requires Inv(s) && Enabled(s, a)
    ensures forall n :: Retained(Step(s, a), n)
  {
    forall n
      ensures Retained(Step(s, a), n)
    {
      assert Retained(s, n);
    }
  }

  lemma {:induction false} StepKeepsEntries(s: State, a: Action)
    requires Inv(s) && Enabled(s, a)
    ensures WriterInv(Step(s, a))
    ensures forall i | 0 <= i < TRACE_LEN :: EntryInv(Step(s, a), i)
  {
    var s' := Step(s, a);
    forall i | 0 <= i < TRACE_LEN
      ensures EntryInv(s', i)
    {
      assert EntryInv(s, i);
      assert a == Publish ==> s.entries[Index(s.writer.sequence)].fields == s.writer.event;
    }
    if a == StoreField {
      var w := s.writer;
      assert s'.entries[Index(w.sequence)].fields[..w.k + 1] == w.event[..w.k + 1];
    }
  }

  lemma {:induction false} StepKeepsReader(s: State, a: Action)
    requires Inv(s) && Enabled(s, a)
    ensures ReaderInv(Step(s, a))
  {
    if a.LoadBefore? {
      assert EntryInv(s, Index(a.sequence));
    } else if s.reader.Loading? {
      var r := s.reader;
      assert EntryInv(s, Index(r.sequence));
      if a == LoadField && s.entries[Index(r.sequence)].sequence == r.sequence {
        assert Step(s, a).reader.loaded == s.log[r.sequence - 1][..|r.loaded| + 1];
      }
    }
  }

  /** What is printed is the event of its number. */
  lemma {:induction false} StepKeepsPrinted(s: State, a: Action)
    requires Inv(s) && Enabled(s, a)
    ensures |Step(s, a).entries| == TRACE_LEN
    ensures forall p | p in Step(s, a).printed :: 0 < p.0 <= |Step(s, a).log| && p.1 == Step(s, a).log[p.0 - 1]
  {
  }

  lemma {:induction false} StepInv(s: State, a: Action)
    requires Inv(s) && Enabled(s, a)
    ensures Inv(Step(s, a))
  {
    hide Enabled, Step, Retained, WriterInv, EntryInv, ReaderInv;
    StepKeepsPrinted(s, a);
    StepRetains(s, a);
    StepKeepsEntries(s, a);
    StepKeepsReader(s, a);
  }

  // ---- Runs ----

  predicate Runnable(s: State, run: seq<Action>)
    decreases |run|
  {
    run == [] || (Enabled(s, run[0]) && Runnable(Step(s, run[0]), run[1..]))
  }

  function Run(s: State, run: seq<Action>): State
    requires Runnable(s, run)
    decreases |run|
  {
    if run == [] then s else Run(Step(s, run[0]), run[1..])
  }

  lemma {:induction false} RunInv(s: State, run: seq<Action>)
    requires Inv(s) && Runnable(s, run)
    ensures Inv(Run(s, run))
    decreases |run|
  {
    hide Inv, Enabled, Step;
    if run != [] {
      StepInv(s, run[0]);
      RunInv(Step(s, run[0]), run[1..]);
    }
  }

  /** Under every interleaving of the writer's stores and the reader's loads: whatever is printed
      under a sequence number is the whole event that was given this number. */
  lemma {:induction false} NoTornEvent(s: State, run: seq<Action>, sequence: nat, fields: seq<nat>)
    requires Init(s) && Runnable(s, run) && (sequence, fields) in Run(s, run).printed
    ensures var log := Run(s, run).log;
            0 < sequence <= |log| && fields == log[sequence - 1]
  {
    RunInv(s, run);
  }

  /** In every state of every run each of the newest TRACE_LEN events, once published, is in the ring
      in full, so a reader that looks for it finds it. */
  lemma {:induction false} NewestEventsAreInTheRing(s: State, run: seq<Action>, n: nat)
    requires Init(s) && Runnable(s, run)
    requires var e := Run(s, run); 0 < n <= Published(e) && |e.log| - 64 < n
    ensures var e := Run(s, run);
            |e.entries| == 64 && n <= |e.log| && e.entries[n % 64] == Entry(n, e.log[n - 1])
  {
    RunInv(s, run);
    assert Retained(Run(s, run), n) && EntryInv(Run(s, run), Index(n));
  }

  // ---- Writing and reading without interference ----

  lemma {:induction false} RunNothing(s: State)
    ensures Runnable(s, []) && Run(s, []) == s
  {
  }

  lemma {:induction false} Prefix(s: State, a: Action, rest: seq<Action>) returns (run: seq<Action>)
    requires Enabled(s, a) && Runnable(Step(s, a), rest)
    ensures Runnable(s, run) && Run(s, run) == Run(Step(s, a), rest)
  {
    run := [a] + rest;
    assert run[1..] == rest;
  }

  lemma {:induction false} StoreRest(s: State) returns (run: seq<Action>)
    requires |s.entries| == TRACE_LEN && s.writer.Storing? && s.writer.k <= FIELDS
    requires s.entries[Index(s.writer.sequence)].fields[..s.writer.k] == s.writer.event[..s.writer.k]
    ensures Runnable(s, run)
    ensures var w := s.writer;
            Run(s, run) == SetEntry(s, w.sequence, Entry(w.sequence, w.event)).(writer := Idle)
    decreases FIELDS - s.writer.k
  {
    hide Run, Runnable;
    var w := s.writer;
    var e := s.entries[Index(w.sequence)];
    if w.k == FIELDS {
      assert e.fields == e.fields[..FIELDS] == w.event[..FIELDS] == w.event;
      RunNothing(Step(s, Publish));
      run := Prefix(s, Publish, []);
    } else {
      var s' := Step(s, StoreField);
      FieldStored(e.fields, w.event, w.k);
      run := StoreRest(s');
      SetTwice(s, w.sequence, s'.entries[Index(w.sequence)], Entry(w.sequence, w.event));
      run := Prefix(s, StoreField, run);
    }
  }

  lemma {:induction false} FieldStored(fields: Event, event: Event, k: nat)
    requires k < FIELDS && fields[..k] == event[..k]
    ensures fields[k := event[k]][..k + 1] == event[..k + 1]
  {
    var after := fields[k := event[k]];
    assert forall i | 0 <= i < k :: after[i] == fields[..k][i] == event[..k][i];
  }

  lemma {:induction false} SetTwice(s: State, sequence: nat, e: Entry, f: Entry)
    requires |s.entries| == TRACE_LEN
    ensures SetEntry(SetEntry(s, sequence, e), sequence, f) == SetEntry(s, sequence, f)
  {
    var i := Index(sequence);
    assert s.entries[i := e][i := f] == s.entries[i := f];
  }

  /** A writer that is left alone puts its event, under the next number, into that number's entry. */
  lemma {:induction false} EventIsWritten(s: State, e: Event) returns (run: seq<Action>)
    requires |s.entries| == TRACE_LEN && s.writer == Idle
    ensures Runnable(s, run)
    ensures Run(s, run) ==
            s.(head := s.head + 1, log := s.log + [e], entries := s.entries[(s.head + 1) % 64 := Entry(s.head + 1, e)])
  {
    hide Run, Runnable;
    var n := s.head + 1;
    var s1 := Step(s, Choose(e));
    var s2 := Step(s1, StoreHead);
    var s3 := Step(s2, ClearSequence);
    run := StoreRest(s3);
    SetTwice(s2, n, s3.entries[Index(n)], Entry(n, e));
    run := Prefix(s2, ClearSequence, run);
    run := Prefix(s1, StoreHead, run);
    run := Prefix(s, Choose(e), run);
  }

  lemma {:induction false} LoadRest(s: State, n: nat, e: Event, k: nat) returns (run: seq<Action>)
    requires |s.entries| == TRACE_LEN && s.entries[Index(n)] == Entry(n, e) && k <= FIELDS
    requires s.reader == Loading(n, e[..k])
    ensures Runnable(s, run) && Run(s, run) == s.(reader := Looking, printed := s.printed + {(n, e)})
    decreases FIELDS - k
  {
    hide Run, Runnable;
    if k == FIELDS {
      assert e[..k] == e;
      RunNothing(Step(s, LoadAfter));
      run := Prefix(s, LoadAfter, []);
    } else {
      assert e[..k] + [e[k]] == e[..k + 1];
      run := LoadRest(Step(s, LoadField), n, e, k + 1);
      run := Prefix(s, LoadField, run);
    }
  }

  /** A reader that is left alone prints every event that is in the ring. */
  lemma {:induction false} EventIsRead(s: State, n: nat, e: Event) returns (run: seq<Action>)
    requires |s.entries| == 64 && n > 0 && s.entries[n % 64] == Entry(n, e) && s.reader == Looking
    ensures Runnable(s, run) && Run(s, run) == s.(printed := s.printed + {(n, e)})
  {
    hide Run, Runnable;
    var s1 := Step(s, LoadBefore(n));
    assert e[..0] == [];
    run := LoadRest(s1, n, e, 0);
    run := Prefix(s, LoadBefore(n), run);
  }
}
