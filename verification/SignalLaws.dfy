/** What a signal does to each task of the table, told by signal numbers and task fields, and whom a group
    signal reaches. */
module SignalLaws {

  import opened Common
  import opened Signals

  /** A process is there to be signalled: not the idle task, in the table, and its leader no zombie. */
  predicate Signallable(ts: Tasks, slot: nat)
    requires Valid(ts) && slot < 32
  {
    && slot != 0 && ts[ProcessSlot(ts, slot)].Some? && !ts[ProcessSlot(ts, slot)].value.zombie
  }

  /** The process of a task is the one its leader slot names. */
  lemma {:induction false} ProcessIsLeaders(ts: Tasks, slot: nat)
    requires Valid(ts) && Led(ts) && slot < 32
    ensures ts[slot].Some? ==> ProcessSlot(ts, slot) == ts[slot].value.leaderSlot
    ensures ts[slot].None? ==> !Signallable(ts, slot)
  {
  }

  function Resumed(t: Task): Task { t.(running := true, state := Runnable) }

  // ---- One process ----

  /** Signals 1 to 31 can be sent to whatever is there. The signal is then pending at the leader, which
      wakes up if it was blocked; nothing else changes. */
  lemma {:induction false} SendEffect(ts: Tasks, slot: nat, sig: nat)
    requires Valid(ts) && slot < 32
    ensures var (us, ok) := Send(ts, slot, sig);
            && (ok <==> 1 <= sig <= 31 && Signallable(ts, slot))
            && us == if !ok then ts else
                 var l := ProcessSlot(ts, slot);
                 var t := ts[l].value.(pending := ts[l].value.pending + {sig});
                 ts[l := Some(if t.state.Blocked? then Resumed(t) else t)]
  {
  }

  /** A stop halts every live thread of a process that is not stopped yet. Its leader notes the signal for the
      parent and loses this one and SIGCONT from its pending signals; waiting parents wake up. */
  lemma {:induction false} StopEffect(ts: Tasks, slot: nat, sig: nat, i: nat)
    requires Valid(ts) && slot < 32 && i < 32
    ensures var (us, ok) := Stop(ts, slot, sig);
            && (ok <==> Signallable(ts, slot) && !ts[ProcessSlot(ts, slot)].value.stopped)
            && |us| == 32 && (!ok ==> us == ts) && (us[i].Some? <==> ts[i].Some?)
            && (ok && ts[i].Some? ==>
                  var l, t := ProcessSlot(ts, slot), ts[i].value;
                  var v := if i != l then t
                           else t.(stopSignal := sig, stopReported := true, pending := t.pending - {sig, 18});
                  us[i].value ==
                    if t.leaderSlot == l && !t.threadExited then v.(running := false, state := Stopped, stopped := true)
                    else if t.state == Blocked(Child) then Resumed(v) else v)
  {
  }

  /** A continuation resumes every live thread. The leader notes it for the parent if it was stopped and
      loses all stop signals and SIGCONT; waiting parents wake up. */
  lemma {:induction false} ContinueEffect(ts: Tasks, slot: nat, i: nat)
    requires Valid(ts) && slot < 32 && i < 32
    ensures var (us, ok) := Continue(ts, slot);
            && (ok <==> Signallable(ts, slot)) && |us| == 32 && (us[i].Some? <==> ts[i].Some?)
            && (slot == 0 ==> us == ts)
            && (ok && ts[i].Some? ==>
                  var l, t := ProcessSlot(ts, slot), ts[i].value;
                  var v := if i != l then t
                           else t.(contReported := t.contReported || t.stopped,
                                   pending := t.pending - {18, 19, 20, 21, 22});
                  us[i].value ==
                    if t.leaderSlot == l && !t.threadExited then Resumed(v).(stopped := false)
                    else if t.state == Blocked(Child) then Resumed(v) else v)
  {
  }

  /** A kill ends every thread with the signal as its status, SIGKILL for none. The leader becomes a zombie;
      waiting parents and joiners wake up. */
  lemma {:induction false} KillEffect(ts: Tasks, slot: nat, sig: nat, i: nat)
    requires Valid(ts) && slot < 32 && i < 32
    ensures var (us, ok) := Kill(ts, slot, sig);
            && (ok <==> Signallable(ts, slot))
            && |us| == 32 && (!ok ==> us == ts) && (us[i].Some? <==> ts[i].Some?)
            && (ok && ts[i].Some? ==>
                  var l, t, f := ProcessSlot(ts, slot), ts[i].value, if sig == 0 then 9 else sig;
                  var v := if i == l then t.(zombie := true) else t;
                  us[i].value ==
                    if t.leaderSlot == l then
                      v.(pending := {}, running := false, state := Zombie, stopped := false, threadExited := true,
                         termSignal := f, exitCode := 128 + f)
                    else if t.state == Blocked(Child) || t.state == Blocked(Thread) then Resumed(v) else v)
  {
    hide OnMembers, WakeWaiters;
  }

  /** What becomes of a signal by its number and the process's dispositions: SIGSTOP and SIGKILL act whatever
      they are; the terminal's stop signals stop unless ignored or caught; SIGCONT always continues, and is
      seen by a handler too; everything else is queued. */
  lemma {:induction false} Disposition(ts: Tasks, slot: nat, sig: nat)
    requires Valid(ts) && slot < 32
    ensures var caught := ts[slot].Some? && sig in ts[slot].value.caught;
            var ignored := ts[slot].Some? && sig in ts[slot].value.ignored;
            var us := Signal(ts, slot, sig);
            && (sig == 19 ==> us == Stop(ts, slot, 19).0)
            && (sig == 9 ==> us == Kill(ts, slot, 9).0)
            && (20 <= sig <= 22 ==>
                  us == if ignored then ts else if caught then Send(ts, slot, sig).0 else Stop(ts, slot, sig).0)
            && (sig == 18 ==>
                  && Valid(Continue(ts, slot).0)
                  && us == if Signallable(ts, slot) && caught && !ignored then Send(Continue(ts, slot).0, slot, 18).0
                           else Continue(ts, slot).0)
            && (sig !in {9, 18, 19, 20, 21, 22} ==> us == Send(ts, slot, sig).0)
  {
    hide Send, Stop, Kill;
    ContinueKeepsProcesses(ts, slot);
    ContinueEffect(ts, slot, slot);
  }

  // ---- A group ----

  predicate LeaderOf(ts: Tasks, pgid: int, i: nat)
    requires |ts| == 32 && i < 32
  {
    ts[i].Some? && ts[i].value.pgid == pgid && !ts[i].value.zombie && ts[i].value.leaderSlot == i
  }

  /** The slots of a group are those of its live leaders, each once and in order. */
  lemma {:induction false} GroupIs(ts: Tasks, pgid: int, from: nat)
    requires |ts| == 32 && from <= 32
    ensures var slots := SlotsInGroup(ts, pgid, from);
            && (forall i: nat :: i in slots <==> from <= i < 32 && LeaderOf(ts, pgid, i))
            && forall a, b | 0 <= a < b < |slots| :: slots[a] < slots[b]
    decreases 32 - from
  {
    if from < 32 {
      GroupIs(ts, pgid, from + 1);
      var first: seq<nat> := if LeaderOf(ts, pgid, from) then [from] else [];
      var rest, slots := SlotsInGroup(ts, pgid, from + 1), SlotsInGroup(ts, pgid, from);
      assert slots == first + rest;
      forall i: nat
        ensures i in slots <==> from <= i < 32 && LeaderOf(ts, pgid, i)
      {
        assert i in slots <==> i in first || i in rest;
      }
      assert forall a | 0 <= a < |rest| :: rest[a] in rest;
    }
  }

  /** Leader `i` is alive, or the signal has reached it: killed by 9, and any queued signal pending. */
  predicate Waiting(ts: Tasks, i: nat)
    requires |ts| == 32 && i < 32
  {
    ts[i].Some? && !ts[i].value.zombie && ts[i].value.leaderSlot == i
  }

  predicate Reached(ts: Tasks, i: nat, sig: nat)
    requires |ts| == 32 && i < 32
  {
    && ts[i].Some? && ts[i].value.leaderSlot == i
    && if sig == 9 then Dead(ts, i) else !ts[i].value.zombie && sig in ts[i].value.pending
  }

  predicate Queued(sig: nat) { 1 <= sig <= 31 && sig !in {9, 18, 19, 20, 21, 22} }

  lemma {:induction false} SignalReaches(ts: Tasks, i: nat, sig: nat)
    requires Valid(ts) && 0 < i < 32 && Waiting(ts, i) && (sig == 9 || Queued(sig))
    ensures Valid(Signal(ts, i, sig)) && Reached(Signal(ts, i, sig), i, sig)
  {
    hide Signal, Kill, Send, Dead;
    Disposition(ts, i, sig);
    SignalKeepsProcesses(ts, i, sig);
    if sig == 9 {
      KillEffect(ts, i, 9, i);
      KillKills(ts, i, 9);
    } else {
      SendEffect(ts, i, sig);
    }
  }

  lemma {:induction false} SignalElsewhere(ts: Tasks, j: nat, i: nat, sig: nat)
    requires Valid(ts) && j < 32 && 0 < i < 32 && j != i && (sig == 9 || Queued(sig))
    requires ts[j].Some? && ts[j].value.leaderSlot == j
    ensures Valid(Signal(ts, j, sig))
    ensures Waiting(ts, i) ==> Waiting(Signal(ts, j, sig), i)
    ensures Reached(ts, i, sig) ==> Reached(Signal(ts, j, sig), i, sig)
  {
    hide Signal, Kill, Send, Dead;
    Disposition(ts, j, sig);
    SignalKeepsProcesses(ts, j, sig);
    if sig == 9 {
      KillEffect(ts, j, 9, i);
      if Reached(ts, i, sig) {
        KillStaysDead(ts, j, 9, i);
        StaysDeadIsDead(ts, Kill(ts, j, 9).0, i);
      }
    } else {
      SendEffect(ts, j, sig);
    }
  }

  predicate AllLeaders(ts: Tasks, slots: seq<nat>)
    requires |ts| == 32
  {
    forall k | 0 <= k < |slots| :: slots[k] < 32 && ts[slots[k]].Some? && ts[slots[k]].value.leaderSlot == slots[k]
  }

  lemma {:induction false} EachReaches(ts: Tasks, slots: seq<nat>, sig: nat, i: nat)
    requires Valid(ts) && AllLeaders(ts, slots) && (sig == 9 || Queued(sig)) && 0 < i < 32
    requires Reached(ts, i, sig) || (Waiting(ts, i) && i in slots)
    requires forall a, b | 0 <= a < b < |slots| :: slots[a] < slots[b]
    ensures Valid(SignalEach(ts, slots, sig)) && Reached(SignalEach(ts, slots, sig), i, sig)
    decreases |slots|
  {
    hide Signal, Reached, Waiting, Queued;
    if slots != [] {
      var j := slots[0];
      var us := Signal(ts, j, sig);
      SignalKeepsProcesses(ts, j, sig);
      if j == i {
        if Waiting(ts, i) {
          SignalReaches(ts, i, sig);
        } else {
          ReachedAgain(ts, i, sig);
        }
      } else {
        SignalElsewhere(ts, j, i, sig);
      }
      EachReaches(us, slots[1..], sig, i);
    }
  }

  /** Signalling again changes nothing of it. */
  lemma {:induction false} ReachedAgain(ts: Tasks, i: nat, sig: nat)
    requires Valid(ts) && 0 < i < 32 && Reached(ts, i, sig) && (sig == 9 || Queued(sig))
    ensures Valid(Signal(ts, i, sig)) && Reached(Signal(ts, i, sig), i, sig)
  {
    hide Signal, Kill, Send, Dead;
    Disposition(ts, i, sig);
    SignalKeepsProcesses(ts, i, sig);
    if sig == 9 {
      KillStaysDead(ts, i, 9, i);
      StaysDeadIsDead(ts, Kill(ts, i, 9).0, i);
    } else {
      SendEffect(ts, i, sig);
    }
  }

  /** A signal to a group reaches every live process of it: SIGKILL leaves them dead, and a signal that is
      queued is pending at each of them. */
  lemma {:induction false} GroupIsReached(ts: Tasks, pgid: int, sig: nat, i: nat)
    requires Valid(ts) && 0 < i < 32 && LeaderOf(ts, pgid, i) && (sig == 9 || Queued(sig))
    ensures var us := SignalEach(ts, SlotsInGroup(ts, pgid, 0), sig);
            Valid(us) && Reached(us, i, sig)
  {
    hide SlotsInGroup, SignalEach, Reached;
    GroupIs(ts, pgid, 0);
    var slots := SlotsInGroup(ts, pgid, 0);
    assert forall k | 0 <= k < |slots| :: slots[k] in slots;
    EachReaches(ts, slots, sig, i);
  }
}
