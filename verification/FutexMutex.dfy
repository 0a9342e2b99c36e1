/** The blocking userspace mutex: any number of threads interleave the atomic operations of
    `lock`, `try_lock` and the guard's `drop` on one state word, together with the kernel's
    FUTEX_WAIT (compare and sleep in one step) and FUTEX_WAKE.

    Every atomic operation is one step; memory is sequentially consistent. */
module FutexMutex {

  // The word: 0 = unlocked, 1 = locked without known waiters, 2 = contended.
  const UNLOCKED := 0
  const LOCKED := 1
  const CONTENDED := 2

  type Thread = nat

  /** Where a thread stands. `Fast(block)` is about to run the first compare-exchange, with `block`
      telling `lock` from a bare `try_lock`; `Load` to read the word; `Cas` to try 0 -> 2; `Swap`
      to store 2; `Wait` to enter FUTEX_WAIT; `Waking` has stored 0 and still owes FUTEX_WAKE. */
  datatype Pc = Idle | Fast(block: bool) | Load | Cas | Swap | Wait | Asleep | Owner | Waking

  datatype State = State(word: int, pc: map<Thread, Pc>)

  /** The branch `lock` takes on a freshly observed word. */
  function Branch(seen: int): Pc {
    if seen == UNLOCKED then Cas else if seen != CONTENDED then Swap else Wait
  }

  datatype Action =
    | Call(block: bool)          // enter lock or try_lock
    | FastCas                    // compare_exchange(0, 1)
    | LoadWord
    | CasContended(fails: bool)  // compare_exchange_weak(0, 2); `fails` is a spurious failure
    | SwapContended              // swap(2)
    | FutexWait
    | SpuriousWake               // a signal or timeout ends the sleep
    | Unlock                     // swap(0)
    | FutexWake(woken: Thread)   // wakes one sleeper, or none when nobody sleeps

  predicate Enabled(s: State, t: Thread, a: Action) {
    t in s.pc &&
    match a
    case Call(_) => s.pc[t] == Idle
    case FastCas => s.pc[t].Fast?
    case LoadWord => s.pc[t] == Load
    case CasContended(_) => s.pc[t] == Cas
    case SwapContended => s.pc[t] == Swap
    case FutexWait => s.pc[t] == Wait
    case SpuriousWake => s.pc[t] == Asleep
    case Unlock => s.pc[t] == Owner
    case FutexWake(w) =>
      s.pc[t] == Waking &&
      ((w in s.pc && s.pc[w] == Asleep) || forall u | u in s.pc :: s.pc[u] != Asleep)
  }

  /** One atomic step of thread `t`. */
  function Step(s: State, t: Thread, a: Action): State
    requires Enabled(s, t, a)
  {
    match a
    case Call(block) => s.(pc := s.pc[t := Fast(block)])
    case FastCas =>
      if s.word == UNLOCKED then State(LOCKED, s.pc[t := Owner])
      else s.(pc := s.pc[t := if s.pc[t].block then Load else Idle])
    case LoadWord => s.(pc := s.pc[t := Branch(s.word)])
    case CasContended(fails) =>
      if s.word == UNLOCKED && !fails then State(CONTENDED, s.pc[t := Owner])
      else s.(pc := s.pc[t := Branch(s.word)])
    case SwapContended =>
      State(CONTENDED, s.pc[t := if s.word == UNLOCKED then Owner else Wait])
    case FutexWait => s.(pc := s.pc[t := if s.word == CONTENDED then Asleep else Load])
    case SpuriousWake => s.(pc := s.pc[t := Load])
    case Unlock => State(UNLOCKED, s.pc[t := if s.word == CONTENDED then Waking else Idle])
    case FutexWake(w) =>
      if w in s.pc && s.pc[w] == Asleep then s.(pc := s.pc[w := Load][t := Idle])
      else s.(pc := s.pc[t := Idle])
  }

  predicate Init(s: State) {
    s.word == UNLOCKED && forall t | t in s.pc :: s.pc[t] == Idle
  }

  datatype Move = Move(thread: Thread, action: Action)

  /** `moves` is a schedule that can be executed from `s`. */
  predicate Runnable(s: State, moves: seq<Move>)
    decreases |moves|
  {
    moves == [] ||
    (Enabled(s, moves[0].thread, moves[0].action) &&
     Runnable(Step(s, moves[0].thread, moves[0].action), moves[1..]))
  }

  function Run(s: State, moves: seq<Move>): State
    requires Runnable(s, moves)
    decreases |moves|
  {
    if moves == [] then s else Run(Step(s, moves[0].thread, moves[0].action), moves[1..])
  }

  // ---- Invariant ----

  /** A thread that will look at the word again, or wake somebody, before it can sleep for good. */
  predicate Awake(p: Pc) { p == Load || p == Cas || p == Swap || p == Wait || p == Waking }

  predicate MutualExclusion(s: State) {
    forall t, u | t in s.pc && u in s.pc && s.pc[t] == Owner && s.pc[u] == Owner :: t == u
  }

  predicate FreeIffNoOwner(s: State) {
    s.word == UNLOCKED <==> forall t | t in s.pc :: s.pc[t] != Owner
  }

  /** No lost wakeup: somebody sleeps only while the word says so or some awake thread is
      responsible for the sleepers. */
  predicate NoLostWakeup(s: State) {
    (exists t | t in s.pc :: s.pc[t] == Asleep) ==>
      s.word == CONTENDED || exists u | u in s.pc :: Awake(s.pc[u])
  }

  predicate Inv(s: State) {
    && UNLOCKED <= s.word <= CONTENDED
    && MutualExclusion(s)
    && FreeIffNoOwner(s)
    && NoLostWakeup(s)
  }

  lemma {:induction false} StepKeepsOwnership(s: State, t: Thread, a: Action)
    requires Inv(s) && Enabled(s, t, a)
    ensures MutualExclusion(Step(s, t, a)) && FreeIffNoOwner(Step(s, t, a))
  {
    var s' := Step(s, t, a);
    if s.word != UNLOCKED {
      var owner :| owner in s.pc && s.pc[owner] == Owner;
      assert t != owner ==> s'.pc[owner] == Owner;
    }
    assert s'.word != UNLOCKED && s.word == UNLOCKED ==> s'.pc[t] == Owner;
  }

  lemma {:induction false} StepKeepsWakeups(s: State, t: Thread, a: Action)
    requires Inv(s) && Enabled(s, t, a)
    ensures NoLostWakeup(Step(s, t, a))
  {
    var s' := Step(s, t, a);
    if u :| u in s'.pc && s'.pc[u] == Asleep && u != t {
      assert s.pc[u] == Asleep;
    }
    if v :| v in s.pc && Awake(s.pc[v]) && v != t {
      assert Awake(s'.pc[v]);
    }
    assert Awake(s.pc[t]) && s.pc[t] != Waking && s'.word != CONTENDED ==> Awake(s'.pc[t]);
    if a.FutexWake? && a.woken in s.pc && s.pc[a.woken] == Asleep {
      assert Awake(s'.pc[a.woken]);
    }
    assert a == Unlock && s.word == CONTENDED ==> Awake(s'.pc[t]);
  }

  lemma {:induction false} StepInv(s: State, t: Thread, a: Action)
    requires Inv(s) && Enabled(s, t, a)
    ensures Inv(Step(s, t, a)) && Step(s, t, a).pc.Keys == s.pc.Keys
  {
    hide MutualExclusion, FreeIffNoOwner, NoLostWakeup;
    StepKeepsOwnership(s, t, a);
    StepKeepsWakeups(s, t, a);
  }

  /** In every state of every run, for any number of threads: at most one owner, the word is zero
      exactly when there is none, and no wakeup is lost. */
  lemma {:induction false} RunInv(s: State, moves: seq<Move>)
    requires Inv(s) && Runnable(s, moves)
    ensures Inv(Run(s, moves))
    ensures Run(s, moves).pc.Keys == s.pc.Keys
    decreases |moves|
  {
    hide Inv, Enabled, Step;
    if moves != [] {
      StepInv(s, moves[0].thread, moves[0].action);
      RunInv(Step(s, moves[0].thread, moves[0].action), moves[1..]);
    }
  }

  lemma {:induction false} InitInv(s: State)
    requires Init(s)
    ensures Inv(s)
  {
  }

  // ---- What a call returns with ----

  /** Inside `lock`, before it has the mutex. */
  predicate InLock(p: Pc) { p == Fast(true) || p == Load || p == Cas || p == Swap || p == Wait || p == Asleep }

  /** No step of any thread takes a `lock` caller anywhere but further inside or to the mutex, and that only
      while the word is 0. */
  lemma {:induction false} LockNeverGivesUp(s: State, t: Thread, a: Action, u: Thread)
    requires Enabled(s, t, a) && u in s.pc && InLock(s.pc[u])
    ensures var s' := Step(s, t, a);
            && u in s'.pc && (InLock(s'.pc[u]) || s'.pc[u] == Owner)
            && (s'.pc[u] == Owner ==> t == u && s.word == UNLOCKED && s'.word != UNLOCKED)
  {
  }

  /** A `try_lock` caller is done in one step of its own: with the mutex exactly if the word was 0. */
  lemma {:induction false} TryLockNeverBlocks(s: State, t: Thread, a: Action, u: Thread)
    requires Enabled(s, t, a) && u in s.pc && s.pc[u] == Fast(false)
    ensures var s' := Step(s, t, a);
            && u in s'.pc && (t != u ==> s'.pc[u] == Fast(false))
            && (t == u ==> s'.pc[u] == if s.word == UNLOCKED then Owner else Idle)
            && (t == u && s.word != UNLOCKED ==> s'.word == s.word)
  {
  }

  /** A call starts a thread that was outside in the way it was made, and changes nothing else. */
  lemma {:induction false} CallStarts(s: State, t: Thread, block: bool)
    requires Enabled(s, t, Call(block))
    ensures s.pc[t] == Idle && (block ==> InLock(Step(s, t, Call(block)).pc[t]))
    ensures Step(s, t, Call(block)) == s.(pc := s.pc[t := Fast(block)])
  {
  }

  /** Only its own unlocking takes the mutex from a thread, and it sets the word to 0. */
  lemma {:induction false} OwnerKeeps(s: State, t: Thread, a: Action, u: Thread)
    requires Enabled(s, t, a) && u in s.pc && s.pc[u] == Owner
    ensures var s' := Step(s, t, a);
            u in s'.pc && (if t == u then a == Unlock && s'.word == UNLOCKED else s'.pc[u] == Owner)
  {
  }

  /** Over every run: a thread that is inside `lock` and later is not has been the owner in between. */
  lemma {:induction false} LockReturnsWithTheMutex(s: State, moves: seq<Move>, u: Thread) returns (k: nat)
    requires Runnable(s, moves) && u in s.pc && InLock(s.pc[u])
    requires u in Run(s, moves).pc && !InLock(Run(s, moves).pc[u])
    ensures k <= |moves| && Runnable(s, moves[..k]) && u in Run(s, moves[..k]).pc
    ensures Run(s, moves[..k]).pc[u] == Owner
    decreases |moves|
  {
    hide Step, Enabled;
    var t, a := moves[0].thread, moves[0].action;
    LockNeverGivesUp(s, t, a, u);
    var s1 := Step(s, t, a);
    if s1.pc[u] == Owner {
      k := 1;
      RunOne(s, t, a);
      assert moves[..1] == [Move(t, a)];
    } else {
      var j := LockReturnsWithTheMutex(s1, moves[1..], u);
      k := j + 1;
      assert moves[..k][1..] == moves[1..][..j];
    }
  }

  /** Whoever enters the slow path, and whoever is woken, looks at the word first. */
  lemma {:induction false} SlowPathLooksFirst(s: State, t: Thread, a: Action, u: Thread)
    requires Enabled(s, t, a) && u in s.pc && (s.pc[u] == Fast(true) || s.pc[u] == Asleep)
    ensures var p := Step(s, t, a).pc[u]; p == s.pc[u] || p == Load || p == Owner
    ensures s.pc[u] == Asleep ==> Step(s, t, a).pc[u] != Owner
  {
  }

  /** Without contention nobody enters the kernel: taking and leaving a free mutex is one step each. */
  lemma {:induction false} UncontendedIsTwoSteps(s: State, t: Thread)
    requires t in s.pc && s.pc[t].Fast? && s.word == UNLOCKED
    ensures var run := [Move(t, FastCas), Move(t, Unlock)];
            Runnable(s, run) && Run(s, run) == s.(pc := s.pc[t := Idle])
  {
    hide Run, Runnable;
    var s1 := Step(s, t, FastCas);
    RunOne(s, t, FastCas);
    RunOne(s1, t, Unlock);
    RunConcat(s, [Move(t, FastCas)], [Move(t, Unlock)]);
    assert [Move(t, FastCas)] + [Move(t, Unlock)] == [Move(t, FastCas), Move(t, Unlock)];
  }

  /** With contention nobody spins: a thread that finds the mutex taken marks the word and sleeps, and one
      that finds it marked sleeps at once. */
  lemma {:induction false} ContendedLockerSleeps(s: State, t: Thread)
    requires t in s.pc && s.pc[t] == Load && (s.word == LOCKED || s.word == CONTENDED)
    ensures var run := if s.word == LOCKED then [Move(t, LoadWord), Move(t, SwapContended), Move(t, FutexWait)]
                       else [Move(t, LoadWord), Move(t, FutexWait)];
            Runnable(s, run) && Run(s, run) == State(CONTENDED, s.pc[t := Asleep])
  {
    hide Run, Runnable;
    var load, swap, wait := [Move(t, LoadWord)], [Move(t, SwapContended)], [Move(t, FutexWait)];
    var s1 := Step(s, t, LoadWord);
    RunOne(s, t, LoadWord);
    if s.word == LOCKED {
      var s2 := Step(s1, t, SwapContended);
      RunOne(s1, t, SwapContended);
      RunOne(s2, t, FutexWait);
      RunConcat(s1, swap, wait);
      RunConcat(s, load, swap + wait);
      assert load + (swap + wait) == [Move(t, LoadWord), Move(t, SwapContended), Move(t, FutexWait)];
    } else {
      RunOne(s1, t, FutexWait);
      RunConcat(s, load, wait);
      assert load + wait == [Move(t, LoadWord), Move(t, FutexWait)];
    }
  }

  // ---- Progress ----

  predicate AllIdle(s: State) {
    forall t | t in s.pc :: s.pc[t] == Idle
  }

  /** Only the threads already inside the mutex move, and no sleep ends by luck. */
  predicate NoHelp(moves: seq<Move>) {
    forall m | m in moves :: !m.action.Call? && !m.action.SpuriousWake?
  }

  lemma {:induction false} RunOne(s: State, t: Thread, a: Action)
    requires Enabled(s, t, a)
    ensures Runnable(s, [Move(t, a)]) && Run(s, [Move(t, a)]) == Step(s, t, a)
  {
    assert [Move(t, a)][1..] == [];
  }

  lemma {:induction false} RunConcat(s: State, m1: seq<Move>, m2: seq<Move>)
    requires Runnable(s, m1) && Runnable(Run(s, m1), m2)
    ensures Runnable(s, m1 + m2) && Run(s, m1 + m2) == Run(Run(s, m1), m2)
    decreases |m1|
  {
    if m1 == [] {
      assert m1 + m2 == m2;
    } else {
      assert (m1 + m2)[1..] == m1[1..] + m2;
      RunConcat(Step(s, m1[0].thread, m1[0].action), m1[1..], m2);
    }
  }

  ghost function Busy(s: State): set<Thread> {
    set t | t in s.pc && s.pc[t] != Idle
  }

  /** While the lock is free, any single thread in the slow path gets it without help. */
  lemma {:induction false} SlowPathAcquires(s: State, t: Thread) returns (moves: seq<Move>)
    requires t in s.pc && s.word == UNLOCKED && Awake(s.pc[t]) && s.pc[t] != Waking
    ensures NoHelp(moves) && Runnable(s, moves)
    ensures Run(s, moves) == State(CONTENDED, s.pc[t := Owner])
  {
    hide Run, Runnable;
    var s1 := s.(pc := s.pc[t := Load]);
    var s2 := s.(pc := s.pc[t := Cas]);
    var take := [Move(t, CasContended(false))];
    RunOne(s2, t, CasContended(false));
    assert Run(s2, take) == State(CONTENDED, s.pc[t := Owner]);
    RunOne(s1, t, LoadWord);
    assert Run(s1, [Move(t, LoadWord)]) == s2;
    RunConcat(s1, [Move(t, LoadWord)], take);
    if s.pc[t] == Swap {
      RunOne(s, t, SwapContended);
      moves := [Move(t, SwapContended)];
    } else if s.pc[t] == Cas {
      assert s == s2;
      moves := take;
    } else if s.pc[t] == Load {
      assert s == s1;
      moves := [Move(t, LoadWord)] + take;
    } else {
      RunOne(s, t, FutexWait);
      moves := [Move(t, LoadWord)] + take;
      RunConcat(s, [Move(t, FutexWait)], moves);
      moves := [Move(t, FutexWait)] + moves;
    }
  }

  /** A thread that owes a wake pays it and is out. */
  lemma {:induction false} WakerLeaves(s: State, t: Thread) returns (moves: seq<Move>)
    requires t in s.pc && s.pc[t] == Waking
    ensures NoHelp(moves) && Runnable(s, moves)
    ensures Run(s, moves).pc.Keys == s.pc.Keys && Busy(Run(s, moves)) == Busy(s) - {t}
  {
    hide Run, Runnable;
    var w: Thread := t;
    if u :| u in s.pc && s.pc[u] == Asleep {
      w := u;
    }
    RunOne(s, t, FutexWake(w));
    moves := [Move(t, FutexWake(w))];
  }

  lemma {:induction false} UnlockLeaves(s: State, t: Thread)
    requires t in s.pc && s.pc[t] == Owner
    ensures var s1 := Step(s, t, Unlock);
            && s1.pc.Keys == s.pc.Keys && (s1.pc[t] == Waking || s1.pc[t] == Idle)
            && Busy(s1) == if s1.pc[t] == Waking then Busy(s) else Busy(s) - {t}
  {
  }

  lemma {:induction false} NoHelpConcat(m1: seq<Move>, m2: seq<Move>)
    requires NoHelp(m1) && NoHelp(m2)
    ensures NoHelp(m1 + m2)
  {
  }

  /** An owner can always leave: it unlocks and, if it found waiters, wakes one of them. */
  lemma {:induction false} OwnerLeaves(s: State, t: Thread) returns (moves: seq<Move>)
    requires t in s.pc && s.pc[t] == Owner
    ensures NoHelp(moves) && Runnable(s, moves)
    ensures Run(s, moves).pc.Keys == s.pc.Keys && Busy(Run(s, moves)) == Busy(s) - {t}
  {
    hide Run, Runnable, Step, Busy;
    UnlockLeaves(s, t);
    RunOne(s, t, Unlock);
    moves := [Move(t, Unlock)];
    if Step(s, t, Unlock).pc[t] == Waking {
      var rest := WakerLeaves(Step(s, t, Unlock), t);
      RunConcat(s, moves, rest);
      NoHelpConcat(moves, rest);
      moves := moves + rest;
    }
  }

  /** No reachable state is a dead end: the threads inside the mutex can always all get through
      it by their own steps, so no sleeper is ever stranded. */
  lemma {:induction false} EveryoneCanFinish(s: State) returns (moves: seq<Move>)
    requires Inv(s)
    ensures NoHelp(moves) && Runnable(s, moves) && AllIdle(Run(s, moves))
    decreases |Busy(s)|
  {
    if AllIdle(s) {
      moves := [];
      return;
    }
    hide Run, Runnable;
    var first, t := SomeoneGetsOut(s);
    var s1 := Run(s, first);
    RunInv(s, first);
    assert |Busy(s1)| < |Busy(s)|;
    var rest := EveryoneCanFinish(s1);
    RunConcat(s, first, rest);
    moves := first + rest;
  }

  /** While nobody holds the lock or owes a wake, some busy thread gets it. */
  lemma {:induction false} SomeoneAcquires(s: State) returns (moves: seq<Move>, t: Thread)
    requires Inv(s) && !AllIdle(s) && forall u | u in s.pc :: s.pc[u] != Owner && s.pc[u] != Waking
    ensures NoHelp(moves) && Runnable(s, moves)
    ensures t in Busy(s) && Run(s, moves).pc == s.pc[t := Owner]
  {
    hide Run, Runnable, MutualExclusion;
    assert s.word == UNLOCKED;
    if u :| u in s.pc && Awake(s.pc[u]) {
      t := u;
      moves := SlowPathAcquires(s, t);
    } else {
      t :| t in s.pc && s.pc[t] != Idle;
      RunOne(s, t, FastCas);
      moves := [Move(t, FastCas)];
    }
  }

  /** From any state with a busy thread, some schedule takes one thread out and brings none in. */
  lemma {:induction false} SomeoneGetsOut(s: State) returns (moves: seq<Move>, t: Thread)
    requires Inv(s) && !AllIdle(s)
    ensures NoHelp(moves) && Runnable(s, moves)
    ensures t in Busy(s) && Busy(Run(s, moves)) == Busy(s) - {t}
  {
    hide Run, Runnable, Inv, NoHelp;
    if owner :| owner in s.pc && s.pc[owner] == Owner {
      t := owner;
      moves := OwnerLeaves(s, t);
    } else if waker :| waker in s.pc && s.pc[waker] == Waking {
      t := waker;
      moves := WakerLeaves(s, t);
    } else {
      var take;
      take, t := SomeoneAcquires(s);
      var leave := OwnerLeaves(Run(s, take), t);
      RunConcat(s, take, leave);
      NoHelpConcat(take, leave);
      moves := take + leave;
    }
  }

  /** When nobody holds the lock and nobody is in its slow path, nobody sleeps on it. */
  lemma {:induction false} FreeLockHasNoStrandedSleeper(s: State, moves: seq<Move>)
    requires Init(s) && Runnable(s, moves)
    ensures var r := Run(s, moves);
            (forall t | t in r.pc :: r.pc[t] != Owner && !Awake(r.pc[t])) ==>
            (forall t | t in r.pc :: r.pc[t] != Asleep)
  {
    InitInv(s);
    RunInv(s, moves);
  }
}
