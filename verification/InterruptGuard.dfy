/** Interrupt-masking guards: a counter and a remembered flag for each CPU. Entering reads the flags,
    masks interrupts and counts; leaving uncounts and, at zero, puts the flag back. This is one CPU:
    its counters are touched by nothing else, since a masked CPU keeps its running code. An interrupt
    may arrive between any two machine steps while the flag is set; its handler starts masked, may use
    guards itself, and has released them all when it returns. Guards are released in any order. */
module InterruptGuard {

  /** Where the code of a context is inside `enter` or `leave`. */
  datatype Pc =
    | Normal
    | Read(flag: bool)                   // flags read, interrupts not yet masked
    | Masked(flag: bool)                 // masked, not yet counted
    | Counted(flag: bool, previous: nat) // counted, flag not yet remembered
    | Uncounted(previous: nat)           // leaving: counter decremented
    | Swapped(flag: bool)                // leaving: remembered flag taken

  /** A flow of control: the code that was running, or a handler on top of it. `base` is the flag it
      started with, `held` the number of guards it holds. */
  datatype Context = Context(pc: Pc, held: nat, base: bool)

  /** `under` are the interrupted contexts, the bottom one first. */
  datatype Cpu = Cpu(flag: bool, nesting: nat, restore: bool, top: Context, under: seq<Context>)

  datatype Event = Begin | Cli | Add | Store | Sub | Swap | Sti | Interrupt | Return

  predicate Enabled(c: Cpu, e: Event) {
    match e
    case Begin => c.top.pc == Normal
    case Cli => c.top.pc.Read?
    case Add => c.top.pc.Masked?
    case Store => c.top.pc.Counted?
    case Sub => c.top.pc == Normal && c.top.held > 0 && c.nesting > 0
    case Swap => c.top.pc.Uncounted?
    case Sti => c.top.pc.Swapped?
    case Interrupt => c.flag
    case Return => c.under != [] && c.top.pc == Normal && c.top.held == 0
  }

  function At(c: Cpu, pc: Pc): Cpu { c.(top := c.top.(pc := pc)) }

  function Next(c: Cpu, e: Event): Cpu
    requires Enabled(c, e)
  {
    match e
    case Begin => At(c, Read(c.flag))
    case Cli => At(c.(flag := false), Masked(c.top.pc.flag))
    case Add => At(c.(nesting := c.nesting + 1), Counted(c.top.pc.flag, c.nesting))
    case Store =>
      c.(restore := if c.top.pc.previous == 0 then c.top.pc.flag else c.restore,
         top := c.top.(pc := Normal, held := c.top.held + 1))
    case Sub =>
      c.(nesting := c.nesting - 1, top := c.top.(pc := Uncounted(c.nesting), held := c.top.held - 1))
    case Swap =>
      if c.top.pc.previous == 1 then At(c.(restore := false), Swapped(c.restore)) else At(c, Normal)
    case Sti => At(c.(flag := c.flag || c.top.pc.flag), Normal)
    case Interrupt => c.(flag := false, under := c.under + [c.top], top := Context(Normal, 0, false))
    case Return => c.(flag := true, top := c.under[|c.under| - 1], under := c.under[..|c.under| - 1])
  }

  /** A context that can be interrupted: no guard, and the flag was set when it last looked. */
  predicate Interruptible(x: Context) {
    x.base && x.held == 0 && (x.pc == Normal || x.pc == Read(true))
  }

  predicate Inv(c: Cpu) {
    && (forall i | 0 <= i < |c.under| :: Interruptible(c.under[i]))
    && match c.top.pc
       case Normal =>
         && c.nesting == c.top.held
         && (if c.nesting == 0 then c.flag == c.top.base && !c.restore else !c.flag && c.restore == c.top.base)
       case Read(f) =>
         && c.nesting == c.top.held && f == c.flag
         && (if c.nesting == 0 then c.flag == c.top.base && !c.restore else !c.flag && c.restore == c.top.base)
       case Masked(f) =>
         && c.nesting == c.top.held && !c.flag
         && (if c.nesting == 0 then f == c.top.base && !c.restore else !f && c.restore == c.top.base)
       case Counted(f, previous) =>
         && c.nesting == c.top.held + 1 && previous == c.top.held && !c.flag
         && (if previous == 0 then f == c.top.base && !c.restore else c.restore == c.top.base)
       case Uncounted(previous) =>
         c.nesting == c.top.held && previous == c.nesting + 1 && !c.flag && c.restore == c.top.base
       case Swapped(f) =>
         c.nesting == c.top.held == 0 && !c.flag && f == c.top.base && !c.restore
  }

  lemma {:induction false} StepInv(c: Cpu, e: Event)
    requires Inv(c) && Enabled(c, e)
    ensures Inv(Next(c, e))
  {
  }

  predicate Runnable(c: Cpu, run: seq<Event>)
    decreases |run|
  {
    run == [] || (Enabled(c, run[0]) && Runnable(Next(c, run[0]), run[1..]))
  }

  function Run(c: Cpu, run: seq<Event>): Cpu
    requires Runnable(c, run)
    decreases |run|
  {
    if run == [] then c else Run(Next(c, run[0]), run[1..])
  }

  lemma {:induction false} RunInv(c: Cpu, run: seq<Event>)
    requires Inv(c) && Runnable(c, run)
    ensures Inv(Run(c, run))
    decreases |run|
  {
    hide Inv;
    if run != [] {
      StepInv(c, run[0]);
      RunInv(Next(c, run[0]), run[1..]);
    }
  }

  /** Guards held anywhere on the CPU. */
  function Held(c: Cpu): nat { c.top.held + HeldUnder(c.under) }

  function HeldUnder(xs: seq<Context>): nat {
    if xs == [] then 0 else HeldUnder(xs[..|xs| - 1]) + xs[|xs| - 1].held
  }

  lemma {:induction false} NoneUnder(xs: seq<Context>)
    requires forall i | 0 <= i < |xs| :: Interruptible(xs[i])
    ensures HeldUnder(xs) == 0
  {
    if xs != [] {
      NoneUnder(xs[..|xs| - 1]);
    }
  }

  function Fresh(flag: bool): Cpu { Cpu(flag, 0, false, Context(Normal, 0, flag), []) }

  /** Over every interleaving of guards and interrupts: while any guard is held interrupts are masked,
      and code that holds none, in whatever order it released them, runs with its original flag. */
  lemma {:induction false} MaskedWhileHeld(flag: bool, run: seq<Event>)
    requires Runnable(Fresh(flag), run)
    ensures var c := Run(Fresh(flag), run);
            && (Held(c) > 0 ==> !c.flag && c.nesting > 0)
            && (c.top.pc == Normal && Held(c) == 0 ==> c.flag == c.top.base && c.nesting == 0 && !c.restore)
            && (c.top.pc == Normal && Held(c) == 0 && c.under == [] ==> c.flag == flag)
  {
    RunInv(Fresh(flag), run);
    BottomBase(Fresh(flag), run);
    NoneUnder(Run(Fresh(flag), run).under);
  }

  function Bottom(c: Cpu): Context { if c.under == [] then c.top else c.under[0] }

  /** The code below all handlers is always the same. */
  lemma {:induction false} BottomBase(c: Cpu, run: seq<Event>)
    requires Runnable(c, run)
    ensures Bottom(Run(c, run)).base == Bottom(c).base
    decreases |run|
  {
    if run != [] {
      BottomBase(Next(c, run[0]), run[1..]);
    }
  }

  /** A handler that came in before the mask leaves everything as it found it. */
  lemma {:induction false} HandlerIsTransparent(c: Cpu, run: seq<Event>)
    requires Inv(c) && c.flag && Runnable(Next(c, Interrupt), run)
    requires var d := Run(Next(c, Interrupt), run); d.under == c.under + [c.top] && Enabled(d, Return)
    ensures Next(Run(Next(c, Interrupt), run), Return) == c
  {
    StepInv(c, Interrupt);
    RunInv(Next(c, Interrupt), run);
    var d := Run(Next(c, Interrupt), run);
    assert d.under[|d.under| - 1] == c.top && d.under[..|d.under| - 1] == c.under;
  }

  lemma {:induction false} Prepend(c: Cpu, e: Event, rest: seq<Event>)
    requires Enabled(c, e) && Runnable(Next(c, e), rest)
    ensures Runnable(c, [e] + rest) && Run(c, [e] + rest) == Run(Next(c, e), rest)
  {
    assert ([e] + rest)[1..] == rest;
  }

  lemma {:induction false} RunConcat(c: Cpu, r1: seq<Event>, r2: seq<Event>)
    requires Runnable(c, r1) && Runnable(Run(c, r1), r2)
    ensures Runnable(c, r1 + r2) && Run(c, r1 + r2) == Run(Run(c, r1), r2)
    decreases |r1|
  {
    if r1 == [] {
      assert r1 + r2 == r2;
    } else {
      assert (r1 + r2)[1..] == r1[1..] + r2;
      RunConcat(Next(c, r1[0]), r1[1..], r2);
    }
  }

  // ---- Calls as a whole ----

  /** What the guards of a CPU live in. */
  datatype Registers = Registers(flag: bool, nesting: nat, restore: bool)

  function Entered(r: Registers): Registers {
    Registers(false, r.nesting + 1, if r.nesting == 0 then r.flag else r.restore)
  }

  function Left(r: Registers): Registers
    requires r.nesting > 0
  {
    if r.nesting == 1 then Registers(r.flag || r.restore, 0, false) else r.(nesting := r.nesting - 1)
  }

  function Of(c: Cpu): Registers { Registers(c.flag, c.nesting, c.restore) }

  function With(c: Cpu, r: Registers, held: nat): Cpu {
    c.(flag := r.flag, nesting := r.nesting, restore := r.restore, top := c.top.(held := held))
  }

  /** The machine steps of entering and of leaving when no interrupt comes in. */
  const ENTER: seq<Event> := [Begin, Cli, Add, Store]

  function LeaveSteps(nesting: nat): seq<Event> { [Sub, Swap] + if nesting == 1 then [Sti] else [] }

  /** Entering, step by step, is entering as a whole. */
  lemma {:induction false} EnterIsRun(c: Cpu)
    requires c.top.pc == Normal
    ensures Runnable(c, ENTER) && Run(c, ENTER) == With(c, Entered(Of(c)), c.top.held + 1)
  {
    var c1 := Next(c, Begin);
    var c2 := Next(c1, Cli);
    var c3 := Next(c2, Add);
    Prepend(c3, Store, []);
    Prepend(c2, Add, [Store]);
    Prepend(c1, Cli, [Add, Store]);
    Prepend(c, Begin, [Cli, Add, Store]);
    assert [Store] + [] == [Store] && [Add] + [Store] == [Add, Store];
    assert [Cli] + [Add, Store] == [Cli, Add, Store] && [Begin] + [Cli, Add, Store] == ENTER;
  }

  /** So is leaving. */
  lemma {:induction false} LeaveIsRun(c: Cpu)
    requires c.top.pc == Normal && c.top.held > 0 && c.nesting > 0
    ensures Runnable(c, LeaveSteps(c.nesting))
    ensures Run(c, LeaveSteps(c.nesting)) == With(c, Left(Of(c)), c.top.held - 1)
  {
    var c1 := Next(c, Sub);
    var rest: seq<Event> := [];
    if c.nesting == 1 {
      Prepend(Next(c1, Swap), Sti, []);
      rest := [Sti];
    }
    Prepend(c1, Swap, rest);
    Prepend(c, Sub, [Swap] + rest);
    assert LeaveSteps(c.nesting) == [Sub] + ([Swap] + rest);
  }

  /** With interrupts at any depth in between, a call still ends as if it had been one step: whenever the
      code is back in its own flow with one guard more, or one less. */
  lemma {:induction false} CallsAreAtomic(c: Cpu, run: seq<Event>)
    requires Inv(c) && c.top.pc == Normal && Runnable(c, run) && Run(c, run).under == c.under
    ensures Run(c, run).top == c.top.(held := c.top.held + 1) ==> Of(Run(c, run)) == Entered(Of(c))
    ensures c.nesting > 0 && c.top.held > 0 && Run(c, run).top == c.top.(held := c.top.held - 1) ==>
              Of(Run(c, run)) == Left(Of(c))
  {
    RunInv(c, run);
  }

  /** The machine steps of a failed `try_lock`, when no interrupt comes in: enter, find the lock taken,
      leave. They can always be taken. */
  lemma {:induction false} FailedTryLockRuns(c: Cpu)
    requires Inv(c) && c.top.pc == Normal
    ensures var run := ENTER + LeaveSteps(c.nesting + 1); Runnable(c, run) && Run(c, run) == c
  {
    hide Run, Runnable;
    EnterIsRun(c);
    LeaveIsRun(Run(c, ENTER));
    RunConcat(c, ENTER, LeaveSteps(c.nesting + 1));
  }

  /** Whatever happens in between, guards entered and left in any order and interrupts at any depth:
      once the code is back where it was with as many guards as it had, flag, counter and remembered flag
      are what they were. A failed `try_lock` is one such run, with or without interrupts in it. */
  lemma {:induction false} FailedTryLockChangesNothing(c: Cpu, run: seq<Event>)
    requires Inv(c) && c.top.pc == Normal && Runnable(c, run)
    requires Run(c, run).top == c.top && Run(c, run).under == c.under
    ensures Run(c, run) == c
  {
    RunInv(c, run);
  }

  // ---- The calls in place ----

  class Guard {
    var flag: bool
    var nesting: nat
    var restore: bool

    function Now(): Registers
      reads this
    {
      Registers(flag, nesting, restore)
    }

    constructor (enabled: bool)
      ensures Now() == Registers(enabled, 0, false)
    {
      flag, nesting, restore := enabled, 0, false;
    }

    method Enter()
      modifies this
      ensures Now() == Entered(old(Now()))
    {
      var saved := flag;
      flag := false;
      var previous := nesting;
      nesting := nesting + 1;
      if previous == 0 {
        restore := saved;
      }
    }

    method LeaveGuard()
      requires nesting > 0
      modifies this
      ensures Now() == Left(old(Now()))
    {
      var previous := nesting;
      nesting := nesting - 1;
      if previous == 1 {
        var saved := restore;
        restore := false;
        if saved {
          flag := true;
        }
      }
    }

    /** A lock that is taken keeps interrupts masked; one that is not changes nothing at all. */
    method TryLock(free: bool) returns (ok: bool)
      requires nesting == 0 ==> !restore
      requires nesting > 0 ==> !flag
      modifies this
      ensures ok == free
      ensures Now() == if ok then Entered(old(Now())) else old(Now())
    {
      Enter();
      if free {
        return true;
      }
      LeaveGuard();
      ok := false;
    }
  }
}
