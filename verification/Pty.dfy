/** The pseudo-terminal line discipline: a flat byte queue towards the slave, a queue of record
    lengths laid over it, a half-edited line, an end-of-file latch and the output queue.

    `PtyState` is the value of one terminal; class `Terminal` updates its fields in place and is
    proved against the functions on `PtyState`. Process groups, signals and the clock enter as
    parameters and results. */
module Pty {

  import opened Common

  const PTY_BUF: nat := 8192
  const CANON_BUF: nat := 1024
  const MAX_REFS: nat := 65535

  const NCCS: nat := 19
  const VINTR := 0
  const VQUIT := 1
  const VERASE := 2
  const VKILL := 3
  const VEOF := 4
  const VTIME := 5
  const VMIN := 6
  const VSUSP := 10

  const BS: byte := 8
  const NL: byte := 10
  const CR: byte := 13
  const DEL: byte := 127

  datatype Side = Master | Slave
  datatype Signal = SigInt | SigQuit | SigTstp

  datatype TermiosData = TermiosData(
    canonical: bool, echo: bool, isig: bool, tostop: bool,
    icrnl: bool, opost: bool, onlcr: bool, cc: seq<byte>)

  type Termios = t: TermiosData | |t.cc| == NCCS
    witness TermiosData(true, true, true, false, true, true, true, seq(NCCS, _ => 0))

  datatype PtyState = PtyState(
    toMaster: seq<byte>,
    toSlave: seq<byte>,
    edit: seq<byte>,         // the unfinished cooked line
    records: seq<nat>,       // sizes of the finished lines at the front of toSlave
    masterRefs: nat,
    slaveRefs: nat,
    eofPending: bool,
    term: Termios)

  // ---- Functions the methods are proved against ----

  const DEFAULT_CC: seq<byte> :=
    [3, 28, 127, 21, 4, 0, 1, 0, 0, 0, 26, 0, 0, 0, 0, 0, 0, 0, 0]

  function Fresh(): PtyState {
    PtyState([], [], [], [], 1, 1, false,
             TermiosData(true, true, true, false, true, true, true, DEFAULT_CC))
  }

  /** The part of `bytes` that still fits behind `queue`. */
  function Fit(queue: seq<byte>, bytes: seq<byte>): seq<byte> {
    if |queue| >= PTY_BUF then [] else bytes[..Min(|bytes|, PTY_BUF - |queue|)]
  }

  function Echo(s: PtyState, bytes: seq<byte>): (r: PtyState)
    ensures r == s.(toMaster := r.toMaster) && (|s.toMaster| <= PTY_BUF ==> |r.toMaster| <= PTY_BUF)
  {
    if s.term.echo then s.(toMaster := s.toMaster + Fit(s.toMaster, bytes)) else s
  }

  /** Release the edited line as one record, cut to the room left in the queue. */
  function Commit(s: PtyState): (r: PtyState)
    ensures r == s.(edit := [], toSlave := r.toSlave, records := r.records)
    ensures s.toSlave <= r.toSlave && s.records <= r.records
  {
    var line := Fit(s.toSlave, s.edit);
    s.(edit := [],
       toSlave := s.toSlave + line,
       records := if line == [] then s.records else s.records + [|line|])
  }

  /** What the line discipline takes one incoming byte for. */
  datatype Key = Interrupt(sig: Signal) | Erase | Kill | EndOfFile | Data(b: byte)

  function Translate(t: Termios, b: byte): byte {
    if t.icrnl && b == CR then NL else b
  }

  function ClassifyCooked(t: Termios, c: byte): Key {
    if c == t.cc[VERASE] || (t.cc[VERASE] == DEL && c == BS) then Erase
    else if c == t.cc[VKILL] && c != 0 then Kill
    else if c == t.cc[VEOF] && c != 0 then EndOfFile
    else Data(c)
  }

  function Classify(t: Termios, b: byte): Key {
    if t.isig && b == t.cc[VINTR] && b != 0 then Interrupt(SigInt)
    else if t.isig && b == t.cc[VQUIT] && b != 0 then Interrupt(SigQuit)
    else if t.isig && b == t.cc[VSUSP] && b != 0 then Interrupt(SigTstp)
    else
      var c := Translate(t, b);
      if t.canonical then ClassifyCooked(t, c) else Data(c)
  }

  function SignalOf(key: Key): Option<Signal> {
    if key.Interrupt? then Some(key.sig) else None
  }

  const ECHO_INT: seq<byte> := [94, 67, CR, NL]    // ^C
  const ECHO_QUIT: seq<byte> := [94, 92, CR, NL]   // ^\
  const ECHO_TSTP: seq<byte> := [94, 90, CR, NL]   // ^Z
  const ECHO_ERASE: seq<byte> := [BS, 32, BS]
  const ECHO_KILL: seq<byte> := [94, 85, CR, NL]   // ^U

  function SignalEcho(sig: Signal): seq<byte> {
    match sig
    case SigInt => ECHO_INT
    case SigQuit => ECHO_QUIT
    case SigTstp => ECHO_TSTP
  }

  /** An ordinary byte joins the edited line while there is room, and is echoed if it does. */
  function Insert(s: PtyState, b: byte): PtyState {
    if |s.edit| < CANON_BUF then Echo(s.(edit := s.edit + [b]), [b]) else s
  }

  function Press(s: PtyState, key: Key): PtyState {
    match key
    case Interrupt(sig) => Echo(s.(edit := []), SignalEcho(sig))
    case Erase => if s.edit == [] then s else Echo(s.(edit := s.edit[..|s.edit| - 1]), ECHO_ERASE)
    case Kill => if s.edit == [] then s else Echo(s.(edit := []), ECHO_KILL)
    case EndOfFile => if s.edit == [] then s.(eofPending := true) else Commit(s)
    case Data(b) =>
      if s.term.canonical then
        if b == NL then Commit(Insert(s, b)) else Insert(s, b)
      else if |s.toSlave| < PTY_BUF then Echo(s.(toSlave := s.toSlave + [b]), [b])
      else s
  }

  function Input(s: PtyState, b: byte): PtyState { Press(s, Classify(s.term, b)) }

  datatype Reading = Reading(state: PtyState, data: seq<byte>, eof: bool)

  function TryRead(s: PtyState, side: Side, n: nat): Reading {
    if side == Master then
      var k := Min(n, |s.toMaster|);
      Reading(s.(toMaster := s.toMaster[k..]), s.toMaster[..k], s.slaveRefs == 0)
    else if !s.term.canonical then
      var k := Min(n, |s.toSlave|);
      Reading(s.(toSlave := s.toSlave[k..]), s.toSlave[..k], s.masterRefs == 0)
    else if s.records == [] then
      if s.eofPending then Reading(s.(eofPending := false), [], true)
      else Reading(s, [], s.masterRefs == 0)
    else
      var k := Min(Min(n, s.records[0]), |s.toSlave|);
      var rest := if k == s.records[0] then s.records[1..] else s.records[0 := s.records[0] - k];
      Reading(s.(toSlave := s.toSlave[k..], records := rest), s.toSlave[..k], false)
  }

  datatype Outcome = Bytes(data: seq<byte>) | WouldBlock | Background

  /** `background` says the caller's process group is not the foreground one; `expired` that the
      VTIME deadline has already passed when it is checked. */
  function ReadOutcome(s: PtyState, side: Side, n: nat, nonblock: bool, background: bool, expired: bool): Outcome {
    var r := TryRead(s, side, n);
    if n == 0 then Bytes([])
    else if side == Slave && background then Background
    else if side == Master || s.term.canonical then
      if r.data != [] || r.eof || nonblock then Bytes(r.data) else WouldBlock
    else
      var vmin := Min(s.term.cc[VMIN], n);
      if nonblock || (vmin == 0 && s.term.cc[VTIME] == 0) then Bytes(r.data)
      else if r.data != [] || r.eof || (vmin == 0 && expired) then Bytes(r.data)
      else WouldBlock
  }

  predicate Readable(s: PtyState, side: Side) {
    match side
    case Master => s.toMaster != [] || s.slaveRefs == 0
    case Slave =>
      if s.term.canonical then s.records != [] || s.eofPending || s.masterRefs == 0
      else s.toSlave != [] || s.masterRefs == 0
  }

  predicate Writable(s: PtyState, side: Side) {
    match side
    case Master => s.slaveRefs > 0 && |s.toSlave| < PTY_BUF
    case Slave => s.masterRefs > 0 && |s.toMaster| < PTY_BUF
  }

  function FlushInput(s: PtyState): PtyState {
    s.(toSlave := [], edit := [], records := [], eofPending := false)
  }

  function SetTermios(s: PtyState, t: Termios): PtyState {
    if s.term.canonical && !t.canonical then
      s.(term := t, records := [], edit := [], eofPending := false,
         toSlave := s.toSlave + Fit(s.toSlave, s.edit))
    else s.(term := t)
  }

  function AddRef(s: PtyState, side: Side): PtyState {
    match side
    case Master => s.(masterRefs := Min(s.masterRefs + 1, MAX_REFS))
    case Slave => s.(slaveRefs := Min(s.slaveRefs + 1, MAX_REFS))
  }

  /** Dropping the last master reference hangs up: an unfinished line is released first. */
  function CloseRef(s: PtyState, side: Side): PtyState {
    match side
    case Master =>
      if s.masterRefs == 0 then s
      else if s.masterRefs == 1 && s.slaveRefs != 0 then Commit(s.(masterRefs := 0))
      else s.(masterRefs := s.masterRefs - 1)
    case Slave => if s.slaveRefs == 0 then s else s.(slaveRefs := s.slaveRefs - 1)
  }

  datatype Writing = Writing(state: PtyState, written: nat, signals: seq<Signal>)

  /** One byte written by the master counts as consumed when it raised a signal, was offered to
      the cooked line, or grew the raw queue. */
  predicate Progressed(s: PtyState, b: byte) {
    Classify(s.term, b).Interrupt? || s.term.canonical || |s.toSlave| < PTY_BUF
  }

  function WriteMaster(s: PtyState, data: seq<byte>): Writing
    decreases |data|
  {
    if data == [] || s.slaveRefs == 0 || !Progressed(s, data[0]) then Writing(s, 0, [])
    else
      var key := Classify(s.term, data[0]);
      var rest := WriteMaster(Press(s, key), data[1..]);
      Writing(rest.state, 1 + rest.written, if key.Interrupt? then [key.sig] + rest.signals else rest.signals)
  }

  /** In raw mode the queue grows exactly when there was room; else nothing at all happens. */
  lemma {:induction false} RawProgress(s: PtyState, key: Key)
    requires !s.term.canonical && key.Data?
    ensures |Press(s, key).toSlave| > |s.toSlave| <==> |s.toSlave| < PTY_BUF
    ensures |s.toSlave| >= PTY_BUF ==> Press(s, key) == s
  {
  }

  lemma {:induction false} PressKeepsTerm(s: PtyState, key: Key)
    ensures Press(s, key).term == s.term && Press(s, key).slaveRefs == s.slaveRefs
  {
  }

  lemma {:induction false} RawKeys(t: Termios, b: byte)
    requires !t.canonical
    ensures Classify(t, b).Interrupt? || Classify(t, b).Data?
  {
  }

  /** Output post-processing of one byte. */
  function Cook(t: Termios, b: byte): seq<byte> {
    if t.opost && t.onlcr && b == NL then [CR, NL] else [b]
  }

  function CookAll(t: Termios, data: seq<byte>): seq<byte> {
    if data == [] then [] else CookAll(t, data[..|data| - 1]) + Cook(t, data[|data| - 1])
  }

  /** How many leading bytes of `data` fit in `room` once post-processed, never half a CR NL. */
  function Accepted(t: Termios, data: seq<byte>, room: nat): (k: nat)
    ensures k <= |data|
  {
    if data == [] || |Cook(t, data[0])| > room then 0
    else 1 + Accepted(t, data[1..], room - |Cook(t, data[0])|)
  }

  /** One more byte of output, at `i`: what it adds, and when it is taken. */
  lemma {:induction false} AcceptedNext(t: Termios, data: seq<byte>, i: nat, room: nat)
    requires i < |data|
    ensures CookAll(t, data[..i + 1]) == CookAll(t, data[..i]) + Cook(t, data[i])
    ensures |Cook(t, data[i])| > room ==> Accepted(t, data[i..], room) == 0
    ensures |Cook(t, data[i])| <= room ==>
              Accepted(t, data[i..], room) == 1 + Accepted(t, data[i + 1..], room - |Cook(t, data[i])|)
  {
    assert data[..i + 1][..i] == data[..i];
    assert data[i..][1..] == data[i + 1..];
  }

  lemma {:induction false} AcceptedNone(t: Termios, data: seq<byte>, room: nat)
    ensures CookAll(t, data[..0]) == [] && Accepted(t, data[|data|..], room) == 0 && data[0..] == data
  {
  }

  datatype WriteResult = Count(n: nat) | WriteWouldBlock | WriteBackground

  function PeerOpen(s: PtyState, side: Side): bool {
    if side == Master then s.slaveRefs > 0 else s.masterRefs > 0
  }

  function Written(s: PtyState, side: Side, data: seq<byte>): nat {
    if side == Master then WriteMaster(s, data).written
    else if s.masterRefs == 0 || |s.toMaster| > PTY_BUF then 0
    else Accepted(s.term, data, PTY_BUF - |s.toMaster|)
  }

  function WriteOutcome(s: PtyState, side: Side, data: seq<byte>, nonblock: bool, background: bool): WriteResult {
    if side == Slave && s.term.tostop && background then WriteBackground
    else if data != [] && PeerOpen(s, side) && Written(s, side, data) == 0 && !nonblock then WriteWouldBlock
    else Count(Written(s, side, data))
  }

  // ---- The terminal, updated in place ----

  class Terminal {
    var toMaster: seq<byte>
    var toSlave: seq<byte>
    var edit: seq<byte>
    var records: seq<nat>
    var masterRefs: nat
    var slaveRefs: nat
    var eofPending: bool
    var term: Termios

    function View(): PtyState
      reads this
    {
      PtyState(toMaster, toSlave, edit, records, masterRefs, slaveRefs, eofPending, term)
    }

    constructor ()
      ensures View() == Fresh()
    {
      toMaster, toSlave, edit, records := [], [], [], [];
      masterRefs, slaveRefs, eofPending := 1, 1, false;
      term := Fresh().term;
    }

    method QueueEcho(bytes: seq<byte>)
      modifies this`toMaster
      ensures View() == Echo(old(View()), bytes)
    {
      if !term.echo {
        return;
      }
      ghost var before := toMaster;
      var i := 0;
      while i < |bytes| && |toMaster| < PTY_BUF
        invariant i <= |bytes|
        invariant toMaster == before + bytes[..i]
        invariant i > 0 ==> |toMaster| <= PTY_BUF
      {
        toMaster := toMaster + [bytes[i]];
        i := i + 1;
      }
    }

    /** The loop shared by a finished line, a hangup and a switch to raw mode. */
    method Release() returns (queued: nat)
      modifies this`toSlave, this`edit
      ensures toSlave == old(toSlave) + Fit(old(toSlave), old(edit)) && edit == []
      ensures queued == |Fit(old(toSlave), old(edit))|
    {
      var pending := edit;
      edit := [];
      queued := 0;
      while queued < |pending| && |toSlave| < PTY_BUF
        invariant queued <= |pending| && edit == []
        invariant toSlave == old(toSlave) + pending[..queued]
        invariant queued > 0 ==> |toSlave| <= PTY_BUF
      {
        toSlave := toSlave + [pending[queued]];
        queued := queued + 1;
      }
    }

    method CommitCanonical()
      modifies this`toSlave, this`edit, this`records
      ensures View() == Commit(old(View()))
    {
      var queued := Release();
      if queued != 0 {
        records := records + [queued];
      }
    }

    method MasterInputByte(raw: byte) returns (signal: Option<Signal>)
      modifies this
      ensures View() == Input(old(View()), raw)
      ensures signal == SignalOf(Classify(old(term), raw))
    {
      if term.isig && raw == term.cc[VINTR] && raw != 0 {
        edit := [];
        QueueEcho(ECHO_INT);
        return Some(SigInt);
      }
      if term.isig && raw == term.cc[VQUIT] && raw != 0 {
        edit := [];
        QueueEcho(ECHO_QUIT);
        return Some(SigQuit);
      }
      if term.isig && raw == term.cc[VSUSP] && raw != 0 {
        edit := [];
        QueueEcho(ECHO_TSTP);
        return Some(SigTstp);
      }
      var b := Translate(term, raw);
      if term.canonical {
        EditLine(b);
      } else if |toSlave| < PTY_BUF {
        toSlave := toSlave + [b];
        QueueEcho([b]);
      }
      return None;
    }

    /** The canonical branch of the byte handler. */
    method EditLine(b: byte)
      requires term.canonical
      modifies this`toMaster, this`toSlave, this`edit, this`records, this`eofPending
      ensures View() == Press(old(View()), ClassifyCooked(term, b))
    {
      hide Echo, Commit;
      if b == term.cc[VERASE] || (term.cc[VERASE] == DEL && b == BS) {
        if edit != [] {
          edit := edit[..|edit| - 1];
          QueueEcho(ECHO_ERASE);
        }
        return;
      }
      if b == term.cc[VKILL] && b != 0 {
        if edit != [] {
          edit := [];
          QueueEcho(ECHO_KILL);
        }
        return;
      }
      if b == term.cc[VEOF] && b != 0 {
        if edit == [] {
          eofPending := true;
        } else {
          CommitCanonical();
        }
        return;
      }
      if |edit| < CANON_BUF {
        edit := edit + [b];
        QueueEcho([b]);
      }
      if b == NL {
        CommitCanonical();
      }
    }

    /** Pop up to `limit` bytes off the front of a queue. */
    static method PopFront(queue: seq<byte>, limit: nat) returns (out: seq<byte>, rest: seq<byte>)
      ensures out == queue[..Min(limit, |queue|)] && rest == queue[Min(limit, |queue|)..]
    {
      out, rest := [], queue;
      while |out| < limit && rest != []
        invariant |out| <= limit && out + rest == queue
        decreases |rest|
      {
        assert out + [rest[0]] + rest[1..] == out + rest;
        out, rest := out + [rest[0]], rest[1..];
      }
    }

    method TryReadInner(side: Side, n: nat) returns (out: seq<byte>, eof: bool)
      modifies this
      ensures Reading(View(), out, eof) == TryRead(old(View()), side, n)
    {
      out := [];
      if side == Slave && term.canonical && records == [] && eofPending {
        eofPending := false;
        return out, true;
      }
      if side == Slave && term.canonical {
        if records == [] {
          return out, masterRefs == 0;
        }
        var remaining := records[0];
        out, toSlave := PopFront(toSlave, Min(n, remaining));
        if |out| == remaining {
          records := records[1..];
        } else {
          records := records[0 := remaining - |out|];
        }
        return out, false;
      }
      if side == Master {
        out, toMaster := PopFront(toMaster, n);
        return out, slaveRefs == 0;
      }
      out, toSlave := PopFront(toSlave, n);
      return out, masterRefs == 0;
    }

    method Read(side: Side, n: nat, nonblock: bool, background: bool, expired: bool) returns (r: Outcome)
      modifies this
      ensures r == ReadOutcome(old(View()), side, n, nonblock, background, expired)
      ensures View() == if n == 0 || r == Background then old(View()) else TryRead(old(View()), side, n).state
    {
      if n == 0 {
        return Bytes([]);
      }
      if side == Slave && background {
        return Background;
      }
      var canonical, cc := term.canonical, term.cc;
      var out, eof := TryReadInner(side, n);
      if side == Master || canonical {
        return if out != [] || eof || nonblock then Bytes(out) else WouldBlock;
      }
      var vmin := Min(cc[VMIN], n);
      if nonblock || (vmin == 0 && cc[VTIME] == 0) {
        return Bytes(out);
      }
      if out != [] || eof || (vmin == 0 && expired) {
        return Bytes(out);
      }
      return WouldBlock;
    }

    method WriteFromMaster(data: seq<byte>) returns (written: nat, signals: seq<Signal>)
      modifies this
      ensures Writing(View(), written, signals) == WriteMaster(old(View()), data)
    {
      hide Press, Classify;
      written, signals := 0, [];
      ghost var all := WriteMaster(View(), data);
      ghost var rest := all;
      assert data[0..] == data;
      while written < |data|
        invariant written <= |data| && rest == WriteMaster(View(), data[written..])
        invariant all.state == rest.state && all.written == written + rest.written
        invariant all.signals == signals + rest.signals
      {
        assert data[written..][1..] == data[written + 1..];
        if slaveRefs == 0 {
          return;
        }
        var before := |toSlave|;
        ghost var s, key := View(), Classify(term, data[written]);
        PressKeepsTerm(s, key);
        if !term.canonical {
          RawKeys(term, data[written]);
          if key.Data? {
            RawProgress(s, key);
          }
        }
        var signal := MasterInputByte(data[written]);
        if signal == None && !term.canonical && |toSlave| <= before {
          return;
        }
        rest := WriteMaster(View(), data[written + 1..]);
        if signal.Some? {
          assert signals + ([signal.value] + rest.signals) == (signals + [signal.value]) + rest.signals;
          signals := signals + [signal.value];
        }
        written := written + 1;
      }
    }

    /** The slave's output: each accepted byte reaches the master post-processed, in order. */
    method WriteFromSlave(data: seq<byte>) returns (written: nat)
      requires |toMaster| <= PTY_BUF
      modifies this`toMaster
      ensures written == if masterRefs == 0 then 0 else Accepted(term, data, PTY_BUF - |old(toMaster)|)
      ensures toMaster == old(toMaster) + CookAll(term, data[..written]) && |toMaster| <= PTY_BUF
    {
      hide CookAll, Accepted;
      written := 0;
      AcceptedNone(term, data, 0);
      if masterRefs == 0 {
        return;
      }
      ghost var room := PTY_BUF - |toMaster|;
      while written < |data|
        invariant written <= |data| && |toMaster| <= PTY_BUF
        invariant toMaster == old(toMaster) + CookAll(term, data[..written])
        invariant Accepted(term, data, room) == written + Accepted(term, data[written..], PTY_BUF - |toMaster|)
      {
        var b := data[written];
        AcceptedNext(term, data, written, PTY_BUF - |toMaster|);
        if term.opost && term.onlcr && b == NL {
          if |toMaster| + 2 > PTY_BUF {
            return;
          }
          toMaster := toMaster + [CR] + [NL];
        } else if |toMaster| >= PTY_BUF {
          return;
        } else {
          toMaster := toMaster + [b];
        }
        written := written + 1;
      }
      AcceptedNone(term, data, PTY_BUF - |toMaster|);
    }

    method Write(side: Side, data: seq<byte>, nonblock: bool, background: bool)
      returns (r: WriteResult, signals: seq<Signal>)
      requires |toMaster| <= PTY_BUF
      modifies this
      ensures r == WriteOutcome(old(View()), side, data, nonblock, background)
      ensures side == Master ==> View() == WriteMaster(old(View()), data).state
      ensures side == Master ==> signals == WriteMaster(old(View()), data).signals
      ensures side == Slave ==> signals == [] && View() == old(View()).(toMaster := toMaster)
      ensures side == Slave ==>
                toMaster == old(toMaster) + (if r.Count? then CookAll(term, data[..r.n]) else [])
    {
      signals := [];
      if side == Slave && term.tostop && background {
        return WriteBackground, [];
      }
      var open := if side == Master then slaveRefs > 0 else masterRefs > 0;
      var written;
      match side {
        case Master => written, signals := WriteFromMaster(data);
        case Slave => written := WriteFromSlave(data);
      }
      if open && written < |data| && !nonblock && written == 0 {
        r := WriteWouldBlock;
      } else {
        r := Count(written);
      }
    }

    method Flush()
      modifies this
      ensures View() == FlushInput(old(View()))
    {
      toSlave, edit, records, eofPending := [], [], [], false;
    }

    method Retune(t: Termios)
      modifies this
      ensures View() == SetTermios(old(View()), t)
    {
      var wasCanonical := term.canonical;
      term := t;
      if wasCanonical && !t.canonical {
        records := [];
        if edit != [] {
          var _ := Release();
        }
        eofPending := false;
      }
    }

    method Open(side: Side)
      modifies this`masterRefs, this`slaveRefs
      ensures View() == AddRef(old(View()), side)
    {
      match side
      case Master => masterRefs := Min(masterRefs + 1, MAX_REFS);
      case Slave => slaveRefs := Min(slaveRefs + 1, MAX_REFS);
    }

    method Close(side: Side) returns (hangup: bool, released: bool)
      modifies this
      ensures View() == CloseRef(old(View()), side)
      ensures hangup <==> side == Master && old(masterRefs) == 1 && slaveRefs != 0
      ensures released <==> masterRefs == 0 && slaveRefs == 0
    {
      hangup := false;
      match side {
        case Master =>
          var wasOpen := masterRefs != 0;
          masterRefs := if masterRefs == 0 then 0 else masterRefs - 1;
          if wasOpen && masterRefs == 0 && slaveRefs != 0 {
            if edit != [] {
              CommitCanonical();
            }
            hangup := true;
          }
        case Slave =>
          slaveRefs := if slaveRefs == 0 then 0 else slaveRefs - 1;
      }
      released := masterRefs == 0 && slaveRefs == 0;
    }
  }
}
