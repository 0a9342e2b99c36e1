/** Signals that act on whole processes: queueing, stopping, continuing and killing, alone and by
    process group. A process is a leader slot and the tasks that name it; a mask of pending signals is
    the set of its signal numbers. Slots given are below the table's size, as at every call site. */
module Signals {

  import opened Common

  const MAX_TASKS: nat := 32

  const SIGKILL: nat := 9
  const SIGCONT: nat := 18
  const SIGSTOP: nat := 19
  const SIGTSTP: nat := 20
  const SIGTTIN: nat := 21
  const SIGTTOU: nat := 22

  datatype WaitReason = Generic | Input | Timer | Child | Thread | Poll | Socket | Audio | Futex
  datatype State = New | Runnable | Running(cpu: nat) | Blocked(reason: WaitReason) | Stopped | Zombie

  datatype Task = Task(
    leaderSlot: int,          // -1 when not assigned
    pgid: int,
    running: bool, state: State, zombie: bool, stopped: bool, threadExited: bool,
    pending: set<nat>,
    caught: set<nat>, ignored: set<nat>,
    termSignal: nat, exitCode: int,
    stopSignal: nat, stopReported: bool, contReported: bool)

  type Tasks = seq<Option<Task>>

  predicate Valid(ts: Tasks) {
    |ts| == MAX_TASKS && forall i | 0 <= i < MAX_TASKS :: ts[i].Some? ==> -1 <= ts[i].value.leaderSlot < MAX_TASKS
  }

  /** The slot that stands for the whole process. */
  function ProcessSlot(ts: Tasks, slot: nat): (leader: nat)
    requires Valid(ts) && slot < MAX_TASKS
    ensures leader < MAX_TASKS
  {
    if ts[slot].Some? && ts[slot].value.leaderSlot >= 0 then ts[slot].value.leaderSlot else slot
  }

  predicate Member(t: Option<Task>, leader: nat) { t.Some? && t.value.leaderSlot == leader }

  function Woken(t: Task): Task { t.(running := true, state := Runnable) }

  // ---- What each member undergoes ----

  function StoppedThread(t: Task): Task {
    if t.threadExited then t else t.(running := false, state := Stopped, stopped := true)
  }

  function ContinuedThread(t: Task): Task {
    if t.threadExited then t else t.(running := true, state := Runnable, stopped := false)
  }

  function FatalSignal(sig: nat): nat { if sig == 0 then SIGKILL else sig }

  function KilledThread(t: Task, sig: nat): Task {
    t.(pending := {}, running := false, state := Zombie, stopped := false, threadExited := true,
       termSignal := FatalSignal(sig), exitCode := 128 + FatalSignal(sig))
  }

  datatype Change = ToStopped | ToContinued | ToKilled(sig: nat)

  function Changed(t: Task, ch: Change): (u: Task)
    ensures u.leaderSlot == t.leaderSlot && u.zombie == t.zombie
  {
    match ch
    case ToStopped => StoppedThread(t)
    case ToContinued => ContinuedThread(t)
    case ToKilled(sig) => KilledThread(t, sig)
  }

  function IfMember(t: Option<Task>, leader: nat, ch: Change): (u: Option<Task>)
    ensures u.Some? == t.Some?
  {
    if Member(t, leader) then Some(Changed(t.value, ch)) else t
  }

  /** Changes the members of the process that are in the first `upto` slots. */
  function OnMembers(ts: Tasks, leader: nat, ch: Change, upto: nat): (us: Tasks)
    ensures |us| == |ts| && forall i | 0 <= i < |ts| :: us[i] == if i < upto then IfMember(ts[i], leader, ch) else ts[i]
  {
    seq(|ts|, i requires 0 <= i < |ts| => if i < upto then IfMember(ts[i], leader, ch) else ts[i])
  }

  function WakeOne(t: Option<Task>, reason: WaitReason): Option<Task> {
    if t.Some? && t.value.state == Blocked(reason) then Some(Woken(t.value)) else t
  }

  function WakeWaiters(ts: Tasks, reason: WaitReason): (us: Tasks)
    ensures |us| == |ts| && forall i | 0 <= i < |ts| :: us[i] == WakeOne(ts[i], reason)
  {
    seq(|ts|, i requires 0 <= i < |ts| => WakeOne(ts[i], reason))
  }

  // ---- The operations, as functions of the table ----

  function Send(ts: Tasks, slot: nat, sig: nat): (Tasks, bool)
    requires Valid(ts) && slot < MAX_TASKS
  {
    if slot == 0 || sig == 0 || sig > 31 then (ts, false)
    else
      var leader := ProcessSlot(ts, slot);
      if ts[leader].None? || ts[leader].value.zombie then (ts, false)
      else
        var t := ts[leader].value;
        var u := t.(pending := t.pending + {sig});
        (ts[leader := Some(if t.state.Blocked? then Woken(u) else u)], true)
  }

  function Stop(ts: Tasks, slot: nat, sig: nat): (Tasks, bool)
    requires Valid(ts) && slot < MAX_TASKS
  {
    if slot == 0 then (ts, false)
    else
      var leader := ProcessSlot(ts, slot);
      if ts[leader].None? || ts[leader].value.zombie || ts[leader].value.stopped then (ts, false)
      else
        var us := OnMembers(ts, leader, ToStopped, MAX_TASKS);
        var t := us[leader].value;
        var u := t.(stopSignal := sig, stopReported := true, pending := t.pending - {sig, SIGCONT});
        (WakeWaiters(us[leader := Some(u)], Child), true)
  }

  function Continue(ts: Tasks, slot: nat): (Tasks, bool)
    requires Valid(ts) && slot < MAX_TASKS
  {
    if slot == 0 then (ts, false)
    else
      var leader := ProcessSlot(ts, slot);
      var us := OnMembers(ts, leader, ToContinued, MAX_TASKS);
      if ts[leader].None? || us[leader].value.zombie then (us, false)
      else
        var t := us[leader].value;
        var u := t.(contReported := t.contReported || ts[leader].value.stopped,
                    pending := t.pending - {SIGCONT, SIGSTOP, SIGTSTP, SIGTTIN, SIGTTOU});
        (WakeWaiters(us[leader := Some(u)], Child), true)
  }

  function Kill(ts: Tasks, slot: nat, sig: nat): (Tasks, bool)
    requires Valid(ts) && slot < MAX_TASKS
  {
    if slot == 0 then (ts, false)
    else
      var leader := ProcessSlot(ts, slot);
      if ts[leader].None? || ts[leader].value.zombie then (ts, false)
      else
        var us := OnMembers(ts, leader, ToKilled(sig), MAX_TASKS);
        var vs := us[leader := Some(us[leader].value.(zombie := true))];
        (WakeWaiters(WakeWaiters(vs, Child), Thread), true)
  }

  /** Every operation leaves each task's process alone, so the table stays valid. */
  predicate SameProcesses(ts: Tasks, us: Tasks) {
    |us| == |ts| && forall i | 0 <= i < |ts| ::
      us[i].Some? == ts[i].Some? && (ts[i].Some? ==> us[i].value.leaderSlot == ts[i].value.leaderSlot)
  }

  /** Every task's leader slot holds a task that names itself. A task enters the table only as its own
      leader or as a thread of such a leader. */
  predicate Led(ts: Tasks) {
    forall i | 0 <= i < |ts| :: ts[i].Some? ==>
      0 <= ts[i].value.leaderSlot < |ts| && Member(ts[ts[i].value.leaderSlot], ts[i].value.leaderSlot)
  }

  lemma {:induction false} InsertKeepsLed(ts: Tasks, slot: nat, t: Task)
    requires Led(ts) && slot < |ts| && ts[slot].None?
    requires t.leaderSlot == slot || (0 <= t.leaderSlot < |ts| && Member(ts[t.leaderSlot], t.leaderSlot))
    ensures Led(ts[slot := Some(t)])
  {
  }

  lemma {:induction false} KeepsLed(ts: Tasks, us: Tasks)
    requires Led(ts) && SameProcesses(ts, us)
    ensures Led(us)
  {
  }

  lemma {:induction false} KeepsValid(ts: Tasks, us: Tasks)
    requires Valid(ts) && SameProcesses(ts, us)
    ensures Valid(us)
  {
  }

  lemma {:induction false} SendKeepsProcesses(ts: Tasks, slot: nat, sig: nat)
    requires Valid(ts) && slot < MAX_TASKS
    ensures SameProcesses(ts, Send(ts, slot, sig).0) && Valid(Send(ts, slot, sig).0)
  {
  }

  lemma {:induction false} StopKeepsProcesses(ts: Tasks, slot: nat, sig: nat)
    requires Valid(ts) && slot < MAX_TASKS
    ensures SameProcesses(ts, Stop(ts, slot, sig).0) && Valid(Stop(ts, slot, sig).0)
  {
  }

  lemma {:induction false} ContinueKeepsProcesses(ts: Tasks, slot: nat)
    requires Valid(ts) && slot < MAX_TASKS
    ensures SameProcesses(ts, Continue(ts, slot).0) && Valid(Continue(ts, slot).0)
  {
  }

  lemma {:induction false} KillKeepsProcesses(ts: Tasks, slot: nat, sig: nat)
    requires Valid(ts) && slot < MAX_TASKS
    ensures SameProcesses(ts, Kill(ts, slot, sig).0) && Valid(Kill(ts, slot, sig).0)
  {
  }

  /** One member of a signalled group. */
  function Signal(ts: Tasks, slot: nat, sig: nat): Tasks
    requires Valid(ts) && slot < MAX_TASKS
  {
    var caught := ts[slot].Some? && sig in ts[slot].value.caught;
    var ignored := ts[slot].Some? && sig in ts[slot].value.ignored;
    if sig == SIGSTOP then Stop(ts, slot, SIGSTOP).0
    else if sig == SIGTSTP || sig == SIGTTIN || sig == SIGTTOU then
      if ignored then ts else if caught then Send(ts, slot, sig).0 else Stop(ts, slot, sig).0
    else if sig == SIGCONT then
      var (us, resumed) := Continue(ts, slot);
      ContinueKeepsProcesses(ts, slot);
      if resumed && caught && !ignored then Send(us, slot, sig).0 else us
    else if sig == SIGKILL then Kill(ts, slot, sig).0
    else Send(ts, slot, sig).0
  }

  function SlotsInGroup(ts: Tasks, pgid: int, from: nat): (slots: seq<nat>)
    requires |ts| == MAX_TASKS && from <= MAX_TASKS
    ensures forall i | 0 <= i < |slots| :: slots[i] < MAX_TASKS
    decreases MAX_TASKS - from
  {
    if from == MAX_TASKS then []
    else
      (if ts[from].Some? && ts[from].value.pgid == pgid && !ts[from].value.zombie && ts[from].value.leaderSlot == from
       then [from] else []) + SlotsInGroup(ts, pgid, from + 1)
  }

  predicate AllSlots(slots: seq<nat>) {
    forall i | 0 <= i < |slots| :: slots[i] < MAX_TASKS
  }

  /** The group's slots are collected first and signalled one after the other. */
  function SignalEach(ts: Tasks, slots: seq<nat>, sig: nat): (us: Tasks)
    requires Valid(ts) && AllSlots(slots)
    ensures Valid(us)
    decreases |slots|
  {
    if slots == [] then ts
    else
      SignalKeepsProcesses(ts, slots[0], sig);
      SignalEach(Signal(ts, slots[0], sig), slots[1..], sig)
  }

  lemma {:induction false} SignalKeepsProcesses(ts: Tasks, slot: nat, sig: nat)
    requires Valid(ts) && slot < MAX_TASKS
    ensures SameProcesses(ts, Signal(ts, slot, sig)) && Valid(Signal(ts, slot, sig))
  {
    hide Send, Stop, Continue, Kill;
    SendKeepsProcesses(ts, slot, sig);
    StopKeepsProcesses(ts, slot, sig);
    ContinueKeepsProcesses(ts, slot);
    SendKeepsProcesses(Continue(ts, slot).0, slot, sig);
    KillKeepsProcesses(ts, slot, sig);
  }

  // ---- Kill is permanent ----

  datatype Op =
    | OpSend(slot: nat, sig: nat) | OpStop(slot: nat, sig: nat) | OpContinue(slot: nat)
    | OpKill(slot: nat, sig: nat) | OpGroup(pgid: int, sig: nat) | OpWake(reason: WaitReason)

  predicate Enabled(op: Op) { op.OpGroup? || op.OpWake? || op.slot < MAX_TASKS }

  function Apply(ts: Tasks, op: Op): Tasks
    requires Valid(ts) && Enabled(op)
  {
    match op
    case OpSend(slot, sig) => Send(ts, slot, sig).0
    case OpStop(slot, sig) => Stop(ts, slot, sig).0
    case OpContinue(slot) => Continue(ts, slot).0
    case OpKill(slot, sig) => Kill(ts, slot, sig).0
    case OpGroup(pgid, sig) => SignalEach(ts, SlotsInGroup(ts, pgid, 0), sig)
    case OpWake(reason) => WakeWaiters(ts, reason)
  }

  predicate AllEnabled(run: seq<Op>) {
    forall i | 0 <= i < |run| :: Enabled(run[i])
  }

  /** A thread the scheduler will not pick again. */
  predicate Gone(t: Task) { t.threadExited && !t.running && t.state == Zombie }

  /** What the parent will be told. */
  predicate SameStatus(t: Task, u: Task) { t.exitCode == u.exitCode && t.termSignal == u.termSignal }

  /** The process of `leader` is dead: its leader is a zombie and all its threads are gone. */
  predicate Dead(ts: Tasks, leader: nat) {
    && leader < |ts| && ts[leader].Some? && ts[leader].value.zombie
    && forall i | 0 <= i < |ts| :: Member(ts[i], leader) ==> Gone(ts[i].value)
  }

  /** Nothing about a dead process's threads has changed that anybody could see. */
  predicate StaysDead(ts: Tasks, us: Tasks, leader: nat) {
    && SameProcesses(ts, us) && Dead(us, leader)
    && forall i | 0 <= i < |ts| :: Member(ts[i], leader) ==> SameStatus(ts[i].value, us[i].value)
  }

  lemma {:induction false} StaysDeadTransitive(ts: Tasks, us: Tasks, vs: Tasks, leader: nat)
    requires Valid(ts) && StaysDead(ts, us, leader) && StaysDead(us, vs, leader)
    ensures Valid(us) && Valid(vs) && StaysDead(ts, vs, leader)
  {
  }

  lemma {:induction false} ChangeStaysDead(ts: Tasks, other: nat, ch: Change, leader: nat)
    requires Dead(ts, leader) && (ch.ToKilled? ==> other != leader)
    ensures StaysDead(ts, OnMembers(ts, other, ch, MAX_TASKS), leader)
  {
  }

  lemma {:induction false} UpdateStaysDead(ts: Tasks, j: nat, u: Task, leader: nat)
    requires Dead(ts, leader) && j < |ts| && ts[j].Some?
    requires var t := ts[j].value;
             && u.leaderSlot == t.leaderSlot && (t.zombie ==> u.zombie) && SameStatus(t, u) && (Gone(t) ==> Gone(u))
    ensures StaysDead(ts, ts[j := Some(u)], leader)
  {
  }

  lemma {:induction false} SendStaysDead(ts: Tasks, slot: nat, sig: nat, leader: nat)
    requires Valid(ts) && slot < MAX_TASKS && Dead(ts, leader)
    ensures StaysDead(ts, Send(ts, slot, sig).0, leader)
  {
  }

  lemma {:induction false} WakeStaysDead(ts: Tasks, reason: WaitReason, leader: nat)
    requires Dead(ts, leader)
    ensures StaysDead(ts, WakeWaiters(ts, reason), leader)
  {
  }

  lemma {:induction false} StopStaysDead(ts: Tasks, slot: nat, sig: nat, leader: nat)
    requires Valid(ts) && slot < MAX_TASKS && Dead(ts, leader)
    ensures StaysDead(ts, Stop(ts, slot, sig).0, leader)
  {
    hide OnMembers, WakeWaiters, StaysDead, Dead;
    if Stop(ts, slot, sig).1 {
      var other := ProcessSlot(ts, slot);
      var us := OnMembers(ts, other, ToStopped, MAX_TASKS);
      var t := us[other].value;
      ChangeStaysDead(ts, other, ToStopped, leader);
      FinishStaysDead(ts, us, other, t.(stopSignal := sig, stopReported := true, pending := t.pending - {sig, SIGCONT}), leader);
    } else {
      Unmoved(ts, leader);
    }
  }

  /** The leader's bookkeeping and the parent's wake-up, after the members have been changed. */
  lemma {:induction false} FinishStaysDead(ts: Tasks, us: Tasks, j: nat, u: Task, leader: nat)
    requires Valid(ts) && StaysDead(ts, us, leader) && j < |us| && us[j].Some?
    requires var t := us[j].value;
             && u.leaderSlot == t.leaderSlot && (t.zombie ==> u.zombie) && SameStatus(t, u) && (Gone(t) ==> Gone(u))
    ensures StaysDead(ts, us[j := Some(u)], leader)
    ensures StaysDead(ts, WakeWaiters(us[j := Some(u)], Child), leader)
  {
    hide WakeWaiters, Gone;
    assert Dead(us, leader);
    UpdateStaysDead(us, j, u, leader);
    var vs := us[j := Some(u)];
    StaysDeadTransitive(ts, us, vs, leader);
    WakeStaysDead(vs, Child, leader);
    StaysDeadTransitive(ts, vs, WakeWaiters(vs, Child), leader);
  }

  lemma {:induction false} Unmoved(ts: Tasks, leader: nat)
    requires Dead(ts, leader)
    ensures StaysDead(ts, ts, leader)
  {
  }

  lemma {:induction false} ContinueStaysDead(ts: Tasks, slot: nat, leader: nat)
    requires Valid(ts) && slot < MAX_TASKS && Dead(ts, leader)
    ensures StaysDead(ts, Continue(ts, slot).0, leader)
  {
    hide OnMembers, WakeWaiters, StaysDead, Dead;
    Unmoved(ts, leader);
    if slot != 0 {
      var other := ProcessSlot(ts, slot);
      var us := OnMembers(ts, other, ToContinued, MAX_TASKS);
      ChangeStaysDead(ts, other, ToContinued, leader);
      if Continue(ts, slot).1 {
        var t := us[other].value;
        FinishStaysDead(ts, us, other,
                        t.(contReported := t.contReported || ts[other].value.stopped,
                           pending := t.pending - {SIGCONT, SIGSTOP, SIGTSTP, SIGTTIN, SIGTTOU}), leader);
      }
    }
  }

  lemma {:induction false} KillStaysDead(ts: Tasks, slot: nat, sig: nat, leader: nat)
    requires Valid(ts) && slot < MAX_TASKS && Dead(ts, leader)
    ensures StaysDead(ts, Kill(ts, slot, sig).0, leader)
  {
    hide OnMembers, WakeWaiters, StaysDead;
    Unmoved(ts, leader);
    if Kill(ts, slot, sig).1 {
      var other := ProcessSlot(ts, slot);
      var us := OnMembers(ts, other, ToKilled(sig), MAX_TASKS);
      ChangeStaysDead(ts, other, ToKilled(sig), leader);
      FinishStaysDead(ts, us, other, us[other].value.(zombie := true), leader);
      var vs := WakeWaiters(us[other := Some(us[other].value.(zombie := true))], Child);
      StaysDeadIsDead(ts, vs, leader);
      WakeStaysDead(vs, Thread, leader);
      StaysDeadTransitive(ts, vs, WakeWaiters(vs, Thread), leader);
    }
  }

  lemma {:induction false} StaysDeadIsDead(ts: Tasks, us: Tasks, leader: nat)
    requires StaysDead(ts, us, leader)
    ensures Dead(us, leader)
  {
  }

  lemma {:induction false} SignalStaysDead(ts: Tasks, slot: nat, sig: nat, leader: nat)
    requires Valid(ts) && slot < MAX_TASKS && Dead(ts, leader)
    ensures StaysDead(ts, Signal(ts, slot, sig), leader)
  {
    hide Send, Stop, Continue, Kill;
    SendStaysDead(ts, slot, sig, leader);
    StopStaysDead(ts, slot, sig, leader);
    KillStaysDead(ts, slot, sig, leader);
    ContinueStaysDead(ts, slot, leader);
    var us := Continue(ts, slot).0;
    KeepsValid(ts, us);
    SendStaysDead(us, slot, sig, leader);
    StaysDeadTransitive(ts, us, Send(us, slot, sig).0, leader);
  }

  lemma {:induction false} GroupStaysDead(ts: Tasks, slots: seq<nat>, sig: nat, leader: nat)
    requires Valid(ts) && AllSlots(slots) && Dead(ts, leader)
    ensures StaysDead(ts, SignalEach(ts, slots, sig), leader)
    decreases |slots|
  {
    hide Signal;
    if slots != [] {
      var us := Signal(ts, slots[0], sig);
      SignalStaysDead(ts, slots[0], sig, leader);
      SignalKeepsProcesses(ts, slots[0], sig);
      GroupStaysDead(us, slots[1..], sig, leader);
      StaysDeadTransitive(ts, us, SignalEach(us, slots[1..], sig), leader);
    }
  }

  lemma {:induction false} StepStaysDead(ts: Tasks, op: Op, leader: nat)
    requires Valid(ts) && Enabled(op) && Dead(ts, leader)
    ensures StaysDead(ts, Apply(ts, op), leader) && Valid(Apply(ts, op))
  {
    hide Send, Stop, Continue, Kill, SignalEach, WakeWaiters;
    match op
    case OpSend(slot, sig) => SendStaysDead(ts, slot, sig, leader);
    case OpStop(slot, sig) => StopStaysDead(ts, slot, sig, leader);
    case OpContinue(slot) => ContinueStaysDead(ts, slot, leader);
    case OpKill(slot, sig) => KillStaysDead(ts, slot, sig, leader);
    case OpGroup(pgid, sig) => GroupStaysDead(ts, SlotsInGroup(ts, pgid, 0), sig, leader);
    case OpWake(reason) => WakeStaysDead(ts, reason, leader);
  }

  /** The table after a run, when every table on the way is valid. */
  function Run(ts: Tasks, run: seq<Op>): (us: Tasks)
    requires Valid(ts) && AllEnabled(run)
    ensures Valid(us)
    decreases |run|
  {
    if run == [] then ts
    else
      ApplyKeepsValid(ts, run[0]);
      Run(Apply(ts, run[0]), run[1..])
  }

  lemma {:induction false} EachKeepsProcesses(ts: Tasks, slots: seq<nat>, sig: nat)
    requires Valid(ts) && AllSlots(slots)
    ensures SameProcesses(ts, SignalEach(ts, slots, sig))
    decreases |slots|
  {
    hide Signal;
    if slots != [] {
      SignalKeepsProcesses(ts, slots[0], sig);
      EachKeepsProcesses(Signal(ts, slots[0], sig), slots[1..], sig);
    }
  }

  /** Every operation leaves every task with its leader. */
  lemma {:induction false} RunKeepsLed(ts: Tasks, run: seq<Op>)
    requires Valid(ts) && AllEnabled(run) && Led(ts)
    ensures Led(Run(ts, run)) && SameProcesses(ts, Run(ts, run))
    decreases |run|
  {
    hide Apply, Led;
    if run != [] {
      ApplyKeepsValid(ts, run[0]);
      KeepsLed(ts, Apply(ts, run[0]));
      RunKeepsLed(Apply(ts, run[0]), run[1..]);
    }
  }

  lemma {:induction false} ApplyKeepsValid(ts: Tasks, op: Op)
    requires Valid(ts) && Enabled(op)
    ensures Valid(Apply(ts, op)) && SameProcesses(ts, Apply(ts, op))
  {
    hide Send, Stop, Continue, Kill, SignalEach;
    match op
    case OpSend(slot, sig) => SendKeepsProcesses(ts, slot, sig);
    case OpStop(slot, sig) => StopKeepsProcesses(ts, slot, sig);
    case OpContinue(slot) => ContinueKeepsProcesses(ts, slot);
    case OpKill(slot, sig) => KillKeepsProcesses(ts, slot, sig);
    case OpGroup(pgid, sig) => EachKeepsProcesses(ts, SlotsInGroup(ts, pgid, 0), sig);
    case OpWake(_) =>
  }

  lemma {:induction false} RunStaysDead(ts: Tasks, run: seq<Op>, leader: nat)
    requires Valid(ts) && AllEnabled(run) && Dead(ts, leader)
    ensures StaysDead(ts, Run(ts, run), leader)
    decreases |run|
  {
    hide Apply;
    if run != [] {
      var us := Apply(ts, run[0]);
      StepStaysDead(ts, run[0], leader);
      RunStaysDead(us, run[1..], leader);
      StaysDeadTransitive(ts, us, Run(us, run[1..]), leader);
    }
  }

  /** Before the wake-ups: every thread of the process is a zombie with the signal's status. */
  lemma {:induction false} MembersKilled(ts: Tasks, leader: nat, sig: nat)
    requires Valid(ts) && leader < MAX_TASKS && ts[leader].Some?
    ensures OnMembers(ts, leader, ToKilled(sig), MAX_TASKS)[leader].Some?
    ensures var us := OnMembers(ts, leader, ToKilled(sig), MAX_TASKS);
            var vs := us[leader := Some(us[leader].value.(zombie := true))];
            && Dead(vs, leader) && SameProcesses(ts, vs)
            && forall i | 0 <= i < |vs| :: Member(vs[i], leader) ==>
                 vs[i].value.termSignal == FatalSignal(sig) && vs[i].value.exitCode == 128 + FatalSignal(sig)
  {
  }

  lemma {:induction false} KillKills(ts: Tasks, slot: nat, sig: nat)
    requires Valid(ts) && slot < MAX_TASKS && Kill(ts, slot, sig).1
    ensures var leader, us := ProcessSlot(ts, slot), Kill(ts, slot, sig).0;
            && Dead(us, leader) && Valid(us) && SameProcesses(ts, us)
            && forall i | 0 <= i < |us| :: Member(us[i], leader) ==>
                 us[i].value.termSignal == FatalSignal(sig) && us[i].value.exitCode == 128 + FatalSignal(sig)
  {
    hide WakeWaiters, OnMembers;
    var leader := ProcessSlot(ts, slot);
    var us := OnMembers(ts, leader, ToKilled(sig), MAX_TASKS);
    var vs := us[leader := Some(us[leader].value.(zombie := true))];
    MembersKilled(ts, leader, sig);
    KeepsValid(ts, vs);
    WakeStaysDead(vs, Child, leader);
    WakeStaysDead(WakeWaiters(vs, Child), Thread, leader);
    StaysDeadTransitive(vs, WakeWaiters(vs, Child), WakeWaiters(WakeWaiters(vs, Child), Thread), leader);
  }

  /** Kill is permanent: after a successful kill no sequence of signals, stops, continues, kills, group
      signals or wake-ups makes any task of the process, its leader included, runnable or changes what
      its parent reads. */
  lemma {:induction false} KilledForGood(ts: Tasks, slot: nat, sig: nat, run: seq<Op>, i: nat)
    requires Valid(ts) && Led(ts) && slot < MAX_TASKS && Kill(ts, slot, sig).1 && AllEnabled(run)
    requires i < MAX_TASKS && ts[i].Some? && ProcessSlot(ts, i) == ProcessSlot(ts, slot)
    ensures Valid(Kill(ts, slot, sig).0)
    ensures var t := Run(Kill(ts, slot, sig).0, run)[i];
            && t.Some? && Gone(t.value)
            && t.value.termSignal == FatalSignal(sig) && t.value.exitCode == 128 + FatalSignal(sig)
  {
    hide Kill, Run;
    KillKills(ts, slot, sig);
    RunStaysDead(Kill(ts, slot, sig).0, run, ProcessSlot(ts, slot));
  }

  /** The killed process has a leader in its own slot, and the leader is one of its threads. */
  lemma {:induction false} LeaderIsAmongTheKilled(ts: Tasks, slot: nat, sig: nat)
    requires Valid(ts) && Led(ts) && slot < MAX_TASKS && Kill(ts, slot, sig).1
    ensures var leader := ProcessSlot(ts, slot); ts[leader].Some? && ProcessSlot(ts, leader) == leader
  {
  }

  // ---- Stop and continue ----

  predicate Live(t: Option<Task>, leader: nat) { Member(t, leader) && !t.value.threadExited }

  /** A successful stop leaves every live thread of the process stopped and latches the report. */
  lemma {:induction false} StopStops(ts: Tasks, slot: nat, sig: nat, i: nat)
    requires Valid(ts) && slot < MAX_TASKS && Stop(ts, slot, sig).1
    requires i < MAX_TASKS && Live(ts[i], ProcessSlot(ts, slot))
    ensures var leader, us := ProcessSlot(ts, slot), Stop(ts, slot, sig).0;
            && |us| == MAX_TASKS && Live(us[i], leader) && us[leader].Some?
            && us[i].value.state == Stopped && !us[i].value.running && us[i].value.stopped
            && us[leader].value.stopReported && us[leader].value.stopSignal == sig && SIGCONT !in us[leader].value.pending
  {
  }

  /** Continuing a process that a stop has just stopped: every live thread is runnable again, no stop
      signal is left pending, and the parent is told of the stop and of the continuation. */
  lemma {:induction false} StopThenContinue(ts: Tasks, slot: nat, sig: nat, i: nat)
    requires Valid(ts) && slot < MAX_TASKS && Stop(ts, slot, sig).1
    requires i < MAX_TASKS && Live(ts[i], ProcessSlot(ts, slot)) && Live(ts[ProcessSlot(ts, slot)], ProcessSlot(ts, slot))
    ensures Valid(Stop(ts, slot, sig).0)
    ensures var leader := ProcessSlot(ts, slot);
            var (us, resumed) := Continue(Stop(ts, slot, sig).0, slot);
            && resumed && |us| == MAX_TASKS && Live(us[i], leader) && us[leader].Some?
            && us[i].value.state == Runnable && us[i].value.running && !us[i].value.stopped
            && us[leader].value.stopReported && us[leader].value.contReported
            && us[leader].value.pending !! {SIGCONT, SIGSTOP, SIGTSTP, SIGTTIN, SIGTTOU}
  {
    hide OnMembers, WakeWaiters;
    StopKeepsProcesses(ts, slot, sig);
    StopStops(ts, slot, sig, i);
    StopStops(ts, slot, sig, ProcessSlot(ts, slot));
    var us := Stop(ts, slot, sig).0;
    StopKeepsZombie(ts, slot, sig);
    assert ProcessSlot(us, slot) == ProcessSlot(ts, slot);
  }

  lemma {:induction false} StopKeepsZombie(ts: Tasks, slot: nat, sig: nat)
    requires Valid(ts) && slot < MAX_TASKS && Stop(ts, slot, sig).1
    ensures var leader, us := ProcessSlot(ts, slot), Stop(ts, slot, sig).0;
            |us| == MAX_TASKS && us[leader].Some? && !us[leader].value.zombie
  {
  }

  // ---- The table in place ----

  class TaskTable {
    var tasks: Tasks

    constructor ()
      ensures Valid(tasks)
    {
      tasks := seq(MAX_TASKS, i => None);
    }

    /** The member loop shared by stop, continue and kill. */
    method ChangeMembers(leader: nat, ch: Change)
      requires Valid(tasks) && leader < MAX_TASKS
      modifies this
      ensures tasks == OnMembers(old(tasks), leader, ch, MAX_TASKS)
    {
      var i := 0;
      while i < MAX_TASKS
        invariant i <= MAX_TASKS && |tasks| == MAX_TASKS && tasks == OnMembers(old(tasks), leader, ch, i)
      {
        if tasks[i].Some? && tasks[i].value.leaderSlot == leader {
          tasks := tasks[i := Some(Changed(tasks[i].value, ch))];
        }
        i := i + 1;
      }
    }

    method Wake(reason: WaitReason)
      modifies this
      ensures tasks == WakeWaiters(old(tasks), reason)
    {
      var i := 0;
      while i < |tasks|
        invariant i <= |tasks| == |old(tasks)|
        invariant forall k | 0 <= k < |tasks| :: tasks[k] == if k < i then WakeOne(old(tasks)[k], reason) else old(tasks)[k]
      {
        if tasks[i].Some? && tasks[i].value.state == Blocked(reason) {
          tasks := tasks[i := Some(Woken(tasks[i].value))];
        }
        i := i + 1;
      }
    }

    method SendSignal(slot: nat, sig: nat) returns (ok: bool)
      requires Valid(tasks) && slot < MAX_TASKS
      modifies this
      ensures (tasks, ok) == Send(old(tasks), slot, sig) && Valid(tasks)
    {
      if slot == 0 || sig == 0 || sig > 31 {
        return false;
      }
      var leader := ProcessSlot(tasks, slot);
      if tasks[leader].None? || tasks[leader].value.zombie {
        return false;
      }
      SendKeepsProcesses(tasks, slot, sig);
      var t := tasks[leader].value;
      t := t.(pending := t.pending + {sig});
      if t.state.Blocked? {
        t := Woken(t);
      }
      tasks := tasks[leader := Some(t)];
      ok := true;
    }

    method StopTask(slot: nat, sig: nat) returns (ok: bool)
      requires Valid(tasks) && slot < MAX_TASKS
      modifies this
      ensures (tasks, ok) == Stop(old(tasks), slot, sig) && Valid(tasks)
    {
      hide OnMembers, WakeWaiters;
      if slot == 0 {
        return false;
      }
      var leader := ProcessSlot(tasks, slot);
      if tasks[leader].None? || tasks[leader].value.zombie || tasks[leader].value.stopped {
        return false;
      }
      StopKeepsProcesses(tasks, slot, sig);
      ChangeMembers(leader, ToStopped);
      var t := tasks[leader].value;
      tasks := tasks[leader := Some(t.(stopSignal := sig, stopReported := true, pending := t.pending - {sig, SIGCONT}))];
      Wake(Child);
      ok := true;
    }

    method ContinueTask(slot: nat) returns (ok: bool)
      requires Valid(tasks) && slot < MAX_TASKS
      modifies this
      ensures (tasks, ok) == Continue(old(tasks), slot) && Valid(tasks)
    {
      hide OnMembers, WakeWaiters;
      if slot == 0 {
        return false;
      }
      ContinueKeepsProcesses(tasks, slot);
      var leader := ProcessSlot(tasks, slot);
      var wasStopped := tasks[leader].Some? && tasks[leader].value.stopped;
      ChangeMembers(leader, ToContinued);
      if tasks[leader].None? || tasks[leader].value.zombie {
        return false;
      }
      var t := tasks[leader].value;
      if wasStopped {
        t := t.(contReported := true);
      }
      t := t.(pending := t.pending - {SIGCONT, SIGSTOP, SIGTSTP, SIGTTIN, SIGTTOU});
      tasks := tasks[leader := Some(t)];
      Wake(Child);
      ok := true;
    }

    method ForceKill(slot: nat, sig: nat) returns (ok: bool)
      requires Valid(tasks) && slot < MAX_TASKS
      modifies this
      ensures (tasks, ok) == Kill(old(tasks), slot, sig) && Valid(tasks)
    {
      hide OnMembers, WakeWaiters;
      if slot == 0 {
        return false;
      }
      var leader := ProcessSlot(tasks, slot);
      if tasks[leader].None? || tasks[leader].value.zombie {
        return false;
      }
      KillKeepsProcesses(tasks, slot, sig);
      ChangeMembers(leader, ToKilled(sig));
      tasks := tasks[leader := Some(tasks[leader].value.(zombie := true))];
      Wake(Child);
      Wake(Thread);
      ok := true;
    }

    /** A terminal signals its foreground group. */
    method SignalGroup(pgid: int, sig: nat)
      requires Valid(tasks)
      modifies this
      ensures tasks == SignalEach(old(tasks), SlotsInGroup(old(tasks), pgid, 0), sig) && Valid(tasks)
    {
      hide Send, Stop, Continue, Kill, SlotsInGroup;
      var slots := SlotsInGroup(tasks, pgid, 0);
      ghost var all := slots;
      while slots != []
        invariant AllSlots(slots) && Valid(tasks)
        invariant SignalEach(tasks, slots, sig) == SignalEach(old(tasks), all, sig)
        decreases |slots|
      {
        SignalKeepsProcesses(tasks, slots[0], sig);
        SignalOne(slots[0], sig);
        slots := slots[1..];
      }
    }

    method SignalOne(slot: nat, sig: nat)
      requires Valid(tasks) && slot < MAX_TASKS
      modifies this
      ensures tasks == Signal(old(tasks), slot, sig) && Valid(tasks)
    {
      hide Send, Stop, Continue, Kill;
      var caught := tasks[slot].Some? && sig in tasks[slot].value.caught;
      var ignored := tasks[slot].Some? && sig in tasks[slot].value.ignored;
      var ok;
      if sig == SIGSTOP {
        ok := StopTask(slot, SIGSTOP);
      } else if sig == SIGTSTP || sig == SIGTTIN || sig == SIGTTOU {
        if ignored {
          return;
        }
        if !caught {
          ok := StopTask(slot, sig);
        } else {
          ok := SendSignal(slot, sig);
        }
      } else if sig == SIGCONT {
        var resumed := ContinueTask(slot);
        if resumed && caught && !ignored {
          ok := SendSignal(slot, sig);
        }
      } else if sig == SIGKILL {
        ok := ForceKill(slot, sig);
      } else {
        ok := SendSignal(slot, sig);
      }
    }
  }
}
