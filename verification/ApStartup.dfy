/** Starting the application processors through one shared parameter block. The boot processor
    writes the stack for the next CPU slot into PARAM_STACK, sends INIT and up to two SIPIs, and
    waits; the started processor reads PARAM_STACK at a moment of its own choosing.

    A SIPI may be lost or arrive at any later time; a processor may run arbitrarily slowly. */
module ApStartup {

  const AP_STACK_SIZE: nat := 16384

  /** An application processor: waiting for INIT, waiting for a SIPI, in the trampoline before
      reading PARAM_STACK, running on a stack it has read, in the kernel and counted, or parked
      because no slot carries its APIC id. */
  datatype Ap =
    | Halted
    | Reset
    | Started
    | OnStack(stack: nat)
    | Running(stack: nat, slot: nat)
    | Parked

  /** The boot processor's start loop, for one slot after the other. */
  datatype Boot =
    | Top(slot: nat)
    | StackWritten(slot: nat, before: nat)
    | InitSent(slot: nat, before: nat)
    | FirstSipi(slot: nat, before: nat)
    | Waiting(slot: nat, before: nat)
    | Stopped(slot: nat)

  /** `ids[slot]` is CPU_APIC_IDS; slot 0 is the boot processor. `aps` is keyed by APIC id. */
  datatype State = State(
    ids: seq<nat>,
    base: nat,
    param: nat,
    online: nat,
    boot: Boot,
    sipis: set<nat>,
    aps: map<nat, Ap>)

  function StackTop(base: nat, slot: nat): nat { base + (slot + 1) * AP_STACK_SIZE }

  predicate Distinct(ids: seq<nat>) {
    forall i, j | 0 <= i < j < |ids| :: ids[i] != ids[j]
  }

  /** The first slot that carries an APIC id, as the started processor looks itself up. */
  function SlotOf(ids: seq<nat>, id: nat): (r: int)
    ensures r == -1 ==> id !in ids
    ensures r != -1 ==> 0 <= r < |ids| && ids[r] == id && id !in ids[..r]
  {
    if ids == [] then -1
    else if ids[0] == id then 0
    else var r := SlotOf(ids[1..], id); if r == -1 then -1 else r + 1
  }

  datatype Action =
    | WriteStack              // publish the next slot's stack
    | NoStack                 // ap_stack_top overflowed: give up
    | SendInit(ok: bool, delivered: bool)
    | SendSipi                // the first SIPI
    | SendSecondSipi(sent: bool)
    | SeeOnline
    | GiveUp
    | LoseSipi(id: nat)
    | DeliverSipi(id: nat)
    | ReadParam(id: nat)
    | Enter(id: nat)

  predicate Enabled(s: State, a: Action) {
    match a
    case WriteStack => s.boot.Top? && 1 <= s.boot.slot < |s.ids|
    case NoStack => s.boot.Top?
    case SendInit(ok, delivered) =>
      s.boot.StackWritten? && s.boot.slot < |s.ids| && (ok ==> delivered) && s.ids[s.boot.slot] in s.aps
    case SendSipi => s.boot.InitSent? && s.boot.slot < |s.ids|
    case SendSecondSipi(sent) => s.boot.FirstSipi? && s.boot.slot < |s.ids| && (sent ==> s.online == s.boot.before)
    case SeeOnline => s.boot.Waiting? && s.online > s.boot.before
    case GiveUp => s.boot.Waiting?
    case LoseSipi(id) => id in s.sipis
    case DeliverSipi(id) => id in s.sipis && id in s.aps
    case ReadParam(id) => id in s.aps && s.aps[id] == Started
    case Enter(id) => id in s.aps && s.aps[id].OnStack?
  }

  function Step(s: State, a: Action): State
    requires Enabled(s, a)
  {
    match a
    case WriteStack =>
      s.(param := StackTop(s.base, s.boot.slot), boot := StackWritten(s.boot.slot, s.online))
    case NoStack => s.(boot := Stopped(s.boot.slot))
    case SendInit(ok, delivered) =>
      var s1 := if delivered then s.(aps := s.aps[s.ids[s.boot.slot] := Reset]) else s;
      s1.(boot := if ok then InitSent(s.boot.slot, s.boot.before) else Stopped(s.boot.slot + 1))
    case SendSipi =>
      s.(sipis := s.sipis + {s.ids[s.boot.slot]}, boot := FirstSipi(s.boot.slot, s.boot.before))
    case SendSecondSipi(sent) =>
      s.(sipis := if sent then s.sipis + {s.ids[s.boot.slot]} else s.sipis,
         boot := Waiting(s.boot.slot, s.boot.before))
    case SeeOnline => s.(boot := Top(s.boot.slot + 1))
    case GiveUp => s.(boot := Stopped(s.boot.slot + 1))
    case LoseSipi(id) => s.(sipis := s.sipis - {id})
    case DeliverSipi(id) =>
      // Only a processor waiting for it reacts to a SIPI.
      s.(aps := if s.aps[id] == Reset then s.aps[id := Started] else s.aps, sipis := s.sipis - {id})
    case ReadParam(id) => s.(aps := s.aps[id := OnStack(s.param)])
    case Enter(id) =>
      var slot := SlotOf(s.ids, id);
      if slot == -1 then s.(aps := s.aps[id := Parked])
      else s.(aps := s.aps[id := Running(s.aps[id].stack, slot)], online := s.online + 1)
  }

  predicate Init(s: State) {
    && Distinct(s.ids) && |s.ids| >= 1
    && s.boot == Top(1) && s.online == 1 && s.sipis == {}
    && (forall id | id in s.aps :: s.aps[id] == Halted)
    && (forall i | 0 <= i < |s.ids| :: s.ids[i] in s.aps)
  }

  // ---- Invariant ----

  /** The first slot whose processor has not been started. */
  function Frontier(b: Boot): nat {
    match b
    case Top(k) => k
    case Stopped(k) => k
    case _ => b.slot + 1
  }

  /** The processor of slot `j`, given the first unstarted slot `k`: all but the newest are up. */
  predicate SlotInv(s: State, j: nat, k: nat)
    requires j < |s.ids| && s.ids[j] in s.aps
  {
    var ap := s.aps[s.ids[j]];
    && (ap.OnStack? ==> ap.stack == StackTop(s.base, j))
    && (ap.Running? ==> ap.slot == j && ap.stack == StackTop(s.base, j))
    && ap != Parked
    && (j >= k || j == 0 ==> ap == Halted && s.ids[j] !in s.sipis)
    && (0 < j && j + 1 < k ==> ap.Running?)
    && (s.boot.Top? && 0 < j < k ==> ap.Running?)
    && (s.boot.StackWritten? && j == s.boot.slot ==> ap == Halted && s.ids[j] !in s.sipis)
  }

  predicate SlotsInv(s: State, k: nat) {
    && (forall i | 0 <= i < |s.ids| :: s.ids[i] in s.aps && SlotInv(s, i, k))
    && (forall id | id in s.aps && id !in s.ids :: s.aps[id] == Halted && id !in s.sipis)
  }

  predicate Inv(s: State) {
    var k := Frontier(s.boot);
    && Distinct(s.ids)
    && 1 <= k <= |s.ids|
    && SlotsInv(s, k)
    && (k >= 2 && !s.aps[s.ids[k - 1]].Running? ==> s.param == StackTop(s.base, k - 1))
    && s.online == k - 1 + (if k >= 2 && !s.aps[s.ids[k - 1]].Running? then 0 else 1)
    && (s.boot.StackWritten? || s.boot.InitSent? || s.boot.FirstSipi? || s.boot.Waiting? ==>
          s.boot.before == k - 1 && s.param == StackTop(s.base, k - 1) && k >= 2)
  }

  lemma {:induction false} DistinctSlot(ids: seq<nat>, j: nat)
    requires Distinct(ids) && j < |ids|
    ensures SlotOf(ids, ids[j]) == j
  {
  }

  /** Moving the processor of slot `j`, and nothing else, keeps the other slots' invariant. */
  lemma {:induction false} OtherSlots(s: State, s': State, j: nat)
    requires Inv(s) && j < |s.ids|
    requires s' == s.(aps := s'.aps, online := s'.online, sipis := s'.sipis)
    requires s.ids[j] in s'.aps && s'.aps == s.aps[s.ids[j] := s'.aps[s.ids[j]]] && s'.sipis <= s.sipis
    requires SlotInv(s', j, Frontier(s.boot))
    ensures SlotsInv(s', Frontier(s.boot))
  {
  }

  lemma {:induction false} StackWrittenInv(s: State)
    requires Inv(s) && Enabled(s, WriteStack)
    ensures Inv(Step(s, WriteStack))
  {
    hide StackTop, SlotOf;
  }

  lemma {:induction false} InitInv(s: State, ok: bool, delivered: bool)
    requires Inv(s) && Enabled(s, SendInit(ok, delivered))
    ensures Inv(Step(s, SendInit(ok, delivered)))
  {
    hide StackTop, SlotOf;
  }

  lemma {:induction false} FirstSipiInv(s: State)
    requires Inv(s) && Enabled(s, SendSipi)
    ensures Inv(Step(s, SendSipi))
  {
    hide StackTop, SlotOf;
  }

  lemma {:induction false} SipiInv(s: State, a: Action)
    requires Inv(s) && Enabled(s, a) && (a.SendSipi? || a.SendSecondSipi?)
    ensures Inv(Step(s, a))
  {
    hide StackTop, SlotOf;
    if a.SendSipi? {
      FirstSipiInv(s);
    }
  }

  /** Taking a SIPI away, or nothing at all, disturbs no slot as long as the loop stays where it is. */
  lemma {:induction false} LoseInv(s: State, id: nat)
    requires Inv(s) && Enabled(s, LoseSipi(id))
    ensures Inv(Step(s, LoseSipi(id)))
  {
    hide StackTop, SlotOf;
  }

  lemma {:induction false} SeeOnlineInv(s: State)
    requires Inv(s) && Enabled(s, SeeOnline)
    ensures Inv(Step(s, SeeOnline))
  {
    hide StackTop, SlotOf;
  }

  lemma {:induction false} LoopInv(s: State, a: Action)
    requires Inv(s) && Enabled(s, a) && (a.NoStack? || a.SeeOnline? || a.GiveUp? || a.LoseSipi?)
    ensures Inv(Step(s, a))
  {
    hide StackTop, SlotOf;
    match a
    case SeeOnline => SeeOnlineInv(s);
    case LoseSipi(id) => LoseInv(s, id);
    case _ =>
  }

  /** A processor that reacts to anything belongs to a slot. */
  lemma {:induction false} Listed(s: State, id: nat) returns (j: nat)
    requires Inv(s) && id in s.aps && (s.aps[id] != Halted || id in s.sipis)
    ensures j < |s.ids| && s.ids[j] == id && SlotOf(s.ids, id) == j
  {
    j :| 0 <= j < |s.ids| && s.ids[j] == id;
    DistinctSlot(s.ids, j);
  }

  lemma {:induction false} DeliverInv(s: State, id: nat)
    requires Inv(s) && Enabled(s, DeliverSipi(id))
    ensures Inv(Step(s, DeliverSipi(id)))
  {
    hide StackTop, SlotOf;
    var s' := Step(s, DeliverSipi(id));
    var j := Listed(s, id);
    assert s'.aps == s.aps[id := s'.aps[id]];
    OtherSlots(s, s', j);
  }

  lemma {:induction false} ReadParamInv(s: State, id: nat)
    requires Inv(s) && Enabled(s, ReadParam(id))
    ensures Inv(Step(s, ReadParam(id)))
  {
    var j := Listed(s, id);
    OtherSlots(s, Step(s, ReadParam(id)), j);
  }

  lemma {:induction false} EnterInv(s: State, id: nat)
    requires Inv(s) && Enabled(s, Enter(id))
    ensures Inv(Step(s, Enter(id)))
  {
    var j := Listed(s, id);
    OtherSlots(s, Step(s, Enter(id)), j);
  }

  // ---- Runs ----

  predicate Runnable(s: State, run: seq<Action>)
    decreases |run|
  {
    run == [] || (Enabled(s, run[0]) && Runnable(Step(s, run[0]), run[1..]))
  }

  function Run(s: State, run: seq<Action>): State
    requires Runnable(s, run)
    decreases |run|
  {
    if run == [] then s else Run(Step(s, run[0]), run[1..])
  }

  lemma {:induction false} RunInv(s: State, run: seq<Action>)
    requires Inv(s) && Runnable(s, run)
    ensures Inv(Run(s, run))
    decreases |run|
  {
    if run != [] {
      var a := run[0];
      match a {
        case WriteStack => StackWrittenInv(s);
        case SendInit(ok, delivered) => InitInv(s, ok, delivered);
        case SendSipi => SipiInv(s, a);
        case SendSecondSipi(_) => SipiInv(s, a);
        case DeliverSipi(id) => DeliverInv(s, id);
        case ReadParam(id) => ReadParamInv(s, id);
        case Enter(id) => EnterInv(s, id);
        case _ => LoopInv(s, a);
      }
      RunInv(Step(s, a), run[1..]);
    }
  }

  /** In every run with distinct APIC ids, every processor that reads the shared block, early or
      after the boot processor gave up on it, gets the stack of its own slot. */
  lemma {:induction false} EveryApRunsOnItsOwnStack(s: State, run: seq<Action>, id: nat)
    requires Init(s) && Runnable(s, run) && id in Run(s, run).aps
    ensures var e := Run(s, run);
            var ap := e.aps[id];
            var own := SlotOf(e.ids, id);
            && (ap.OnStack? || ap.Running? ==> own >= 1 && ap.stack == StackTop(e.base, own))
            && (ap.Running? ==> ap.slot == own)
            && ap != Parked
  {
    RunInv(s, run);
    var e := Run(s, run);
    if id in e.ids {
      var j :| 0 <= j < |e.ids| && e.ids[j] == id;
      DistinctSlot(e.ids, j);
    }
  }

  /** Hence no two processors ever share a byte of stack. */
  lemma {:induction false} StacksAreDisjoint(s: State, run: seq<Action>, x: nat, y: nat)
    requires Init(s) && Runnable(s, run)
    requires var aps := Run(s, run).aps;
             x in aps && y in aps && x != y && aps[x].Running? && aps[y].Running?
    ensures var aps := Run(s, run).aps;
            aps[x].stack + 16384 <= aps[y].stack || aps[y].stack + 16384 <= aps[x].stack
  {
    EveryApRunsOnItsOwnStack(s, run, x);
    EveryApRunsOnItsOwnStack(s, run, y);
  }

  /** And the stacks are the area's own pieces: the processor of slot `k` has piece `k` of 16 KiB. */
  lemma {:induction false} StackIsInArea(s: State, run: seq<Action>, x: nat)
    requires Init(s) && Runnable(s, run) && x in Run(s, run).aps && Run(s, run).aps[x].Running?
    ensures var e := Run(s, run);
            var ap := e.aps[x];
            && 0 < ap.slot < |e.ids| && e.ids[ap.slot] == x
            && ap.stack == e.base + ap.slot * 16384 + 16384 <= e.base + |e.ids| * 16384
  {
    EveryApRunsOnItsOwnStack(s, run, x);
  }

  // ---- Distinct ids are also necessary ----

  lemma {:induction false} RunNothing(s: State)
    ensures Runnable(s, []) && Run(s, []) == s
  {
  }

  lemma {:induction false} Prefix(s: State, a: Action, rest: seq<Action>) returns (run: seq<Action>)
    requires Enabled(s, a) && Runnable(Step(s, a), rest)
    ensures Runnable(s, run) && Run(s, run) == Run(Step(s, a), rest) && run == [a] + rest
  {
    run := [a] + rest;
    assert run[1..] == rest;
  }

  lemma {:induction false} RunConcat(s: State, r1: seq<Action>, r2: seq<Action>)
    requires Runnable(s, r1) && Runnable(Run(s, r1), r2)
    ensures Runnable(s, r1 + r2) && Run(s, r1 + r2) == Run(Run(s, r1), r2)
    decreases |r1|
  {
    if r1 == [] {
      assert r1 + r2 == r2;
    } else {
      assert (r1 + r2)[1..] == r1[1..] + r2;
      RunConcat(Step(s, r1[0]), r1[1..], r2);
    }
  }

  /** The next slot's processor comes up without a hitch, whatever it was doing. */
  lemma {:induction false} StartNext(s: State) returns (run: seq<Action>)
    requires s.boot.Top? && 1 <= s.boot.slot < |s.ids| && s.ids[s.boot.slot] in s.aps && s.sipis == {}
    ensures Runnable(s, run)
    ensures var k := s.boot.slot;
            var e := Run(s, run);
            && e.boot == Top(k + 1) && e.ids == s.ids && e.base == s.base && e.sipis == {}
            && e.aps == s.aps[s.ids[k] := Running(StackTop(s.base, k), SlotOf(s.ids, s.ids[k]))]
  {
    hide Run, Runnable, SlotOf, StackTop;
    var id := s.ids[s.boot.slot];
    var s1 := Step(s, WriteStack);
    var s2 := Step(s1, SendInit(true, true));
    var s3 := Step(s2, SendSipi);
    var s4 := Step(s3, DeliverSipi(id));
    var s5 := Step(s4, ReadParam(id));
    var s6 := Step(s5, Enter(id));
    var s7 := Step(s6, SendSecondSipi(false));
    RunNothing(Step(s7, SeeOnline));
    run := Prefix(s7, SeeOnline, []);
    run := Prefix(s6, SendSecondSipi(false), run);
    run := Prefix(s5, Enter(id), run);
    run := Prefix(s4, ReadParam(id), run);
    run := Prefix(s3, DeliverSipi(id), run);
    run := Prefix(s2, SendSipi, run);
    run := Prefix(s1, SendInit(true, true), run);
    run := Prefix(s, WriteStack, run);
  }

  /** The first SIPI may be lost: the second one, sent only while nobody has answered, brings the processor
      up all the same. */
  lemma {:induction false} SecondSipiRecovers(s: State) returns (run: seq<Action>)
    requires s.boot.Top? && 1 <= s.boot.slot < |s.ids| && s.ids[s.boot.slot] in s.aps && s.sipis == {}
    ensures Runnable(s, run) && |run| > 4 && run[3] == LoseSipi(s.ids[s.boot.slot])
    ensures var k := s.boot.slot;
            var e := Run(s, run);
            && e.boot == Top(k + 1) && e.ids == s.ids && e.base == s.base && e.sipis == {}
            && e.aps == s.aps[s.ids[k] := Running(StackTop(s.base, k), SlotOf(s.ids, s.ids[k]))]
  {
    hide Run, Runnable, SlotOf, StackTop;
    var id := s.ids[s.boot.slot];
    var s1 := Step(s, WriteStack);
    var s2 := Step(s1, SendInit(true, true));
    var s3 := Step(s2, SendSipi);
    var s4 := Step(s3, LoseSipi(id));
    var s5 := Step(s4, SendSecondSipi(true));
    run := AnswerSecond(s5, id);
    run := Prefix(s4, SendSecondSipi(true), run);
    run := Prefix(s3, LoseSipi(id), run);
    run := Prefix(s2, SendSipi, run);
    run := Prefix(s1, SendInit(true, true), run);
    run := Prefix(s, WriteStack, run);
  }

  /** A SIPI that is lost or delivered is no longer on its way, and no other is touched. */
  lemma {:induction false} SipiLeaves(s: State, id: nat)
    ensures Enabled(s, LoseSipi(id)) ==> Step(s, LoseSipi(id)) == s.(sipis := s.sipis - {id})
    ensures Enabled(s, DeliverSipi(id)) ==> Step(s, DeliverSipi(id)).sipis == s.sipis - {id}
    ensures Enabled(s, LoseSipi(id)) <==> id in s.sipis
  {
  }

  lemma {:induction false} AnswerSecond(s: State, id: nat) returns (run: seq<Action>)
    requires s.boot.Waiting? && s.boot.slot < |s.ids| && s.ids[s.boot.slot] == id && id in s.aps && s.aps[id] == Reset
    requires s.sipis == {id} && s.online == s.boot.before
    ensures Runnable(s, run) && |run| > 0
    ensures var e := Run(s, run);
            && e.boot == Top(s.boot.slot + 1) && e.ids == s.ids && e.base == s.base && e.sipis == {}
            && e.aps == s.aps[id := Running(s.param, SlotOf(s.ids, id))]
  {
    hide Run, Runnable;
    var s1 := Step(s, DeliverSipi(id));
    var s2 := Step(s1, ReadParam(id));
    var s3 := Step(s2, Enter(id));
    RunNothing(Step(s3, SeeOnline));
    run := Prefix(s3, SeeOnline, []);
    run := Prefix(s2, Enter(id), run);
    run := Prefix(s1, ReadParam(id), run);
    run := Prefix(s, DeliverSipi(id), run);
  }

  /** Whenever the table lists one APIC id in slots 0 < i < j, some run leaves that processor on the
      stack of a slot other than the one it takes itself for. */
  lemma {:induction false} DuplicateIdTakesForeignStack(s: State, i: nat, j: nat) returns (run: seq<Action>)
    requires s.boot == Top(1) && s.sipis == {} && 0 < i < j < |s.ids| && s.ids[i] == s.ids[j]
    requires forall x | 0 <= x < |s.ids| :: s.ids[x] in s.aps
    ensures Runnable(s, run)
    ensures var e := Run(s, run);
            s.ids[j] in e.aps && e.aps[s.ids[j]].Running? &&
            e.aps[s.ids[j]].stack == StackTop(s.base, j) && e.aps[s.ids[j]].slot < j
  {
    hide Run, Runnable, StackTop, SlotOf, Step, Enabled;
    RunNothing(s);
    run := [];
    var k := 1;
    while k <= j
      invariant 1 <= k <= j + 1 && Runnable(s, run)
      invariant var e := Run(s, run);
                && e.boot == Top(k) && e.ids == s.ids && e.base == s.base && e.sipis == {}
                && e.aps.Keys == s.aps.Keys
                && (k > 1 ==> e.aps[s.ids[k - 1]] == Running(StackTop(s.base, k - 1), SlotOf(s.ids, s.ids[k - 1])))
    {
      var more := StartNext(Run(s, run));
      RunConcat(s, run, more);
      run := run + more;
      k := k + 1;
    }
  }
}
