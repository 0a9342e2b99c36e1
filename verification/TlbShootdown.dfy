/** TLB shootdown with epochs. One CPU at a time (the callers hold the kernel lock) runs
    `shootdown_tlb` step by step, while every CPU runs its IPI handler load by load, switches
    address spaces, fills and drops TLB entries, and other page-table changes go on.

    Assumptions: atomics are sequentially consistent; a context switch reloads CR3 (dropping all
    entries) and publishes CURRENT_CR3 in one step; epochs do not wrap. IPIs may be lost, delayed
    beyond the transaction that sent them, or merged. */
module TlbShootdown {

  type PageDir = nat
  type Page = nat

  /** The handler between its loads: it has read the epoch, then CR3, then found the target
      directory loaded, then read the target page, and finally owes its acknowledgement. */
  datatype Handler =
    | Quiet
    | GotEpoch(epoch: nat)
    | GotCr3(epoch: nat, cr3: PageDir)
    | Matched(epoch: nat)
    | GotPage(epoch: nat, page: Page)
    | Acking(epoch: nat)

  datatype Cpu = Cpu(online: bool, cr3: PageDir, tlb: set<Page>, handler: Handler, ack: nat, ipi: bool)

  /** The sender's program: scan CPUs, store the target directory and page, bump the epoch, send
      the IPIs, then poll targets (first CURRENT_CR3, then the acknowledged epoch). */
  datatype Phase =
    | Scanning(next: nat)
    | StoringCr3
    | StoringPage
    | Bumping
    | Sending(i: nat)
    | PollingCr3(j: nat)
    | PollingAck(j: nat)

  datatype Txn = NoTxn | Txn(sender: nat, dir: PageDir, addr: nat, page: Page, targets: seq<nat>, phase: Phase)

  datatype State = State(
    cpus: seq<Cpu>,
    mapped: set<(PageDir, Page)>,
    epoch: nat,
    targetCr3: PageDir,
    targetPage: Page,
    txn: Txn)

  function PageOf(addr: nat): Page { addr - addr % 4096 }

  datatype Action =
    // the environment
    | Online(cpu: nat, kernelDir: PageDir)
    | Switch(cpu: nat, dir: PageDir)
    | Fill(cpu: nat, page: Page)
    | Evict(cpu: nat, page: Page)
    | Map(dir: PageDir, page: Page)
    | Unmap(dir: PageDir, page: Page)
    // the interrupt handler of one CPU
    | LoadEpoch(cpu: nat)
    | ReadCr3(cpu: nat)
    | LoadTargetCr3(cpu: nat)
    | LoadTargetPage(cpu: nat)
    | FlushPage(cpu: nat)
    | StoreAck(cpu: nat)
    // the sender
    | Begin(sender: nat, dir: PageDir, addr: nat)
    | Advance(delivered: bool)
    | Timeout
    | ReturnTrue

  predicate Enabled(s: State, a: Action) {
    match a
    case Online(c, _) => c < |s.cpus| && !s.cpus[c].online
    case Switch(c, _) => c < |s.cpus| && s.cpus[c].online && s.cpus[c].handler == Quiet
    case Fill(c, p) => c < |s.cpus| && s.cpus[c].online && (s.cpus[c].cr3, p) in s.mapped
    case Evict(c, _) => c < |s.cpus|
    case Map(d, p) => s.txn.Txn? ==> (d, p) != (s.txn.dir, s.txn.page)
    case Unmap(_, _) => true
    case LoadEpoch(c) => c < |s.cpus| && s.cpus[c].online && s.cpus[c].ipi && s.cpus[c].handler == Quiet
    case ReadCr3(c) => c < |s.cpus| && s.cpus[c].handler.GotEpoch?
    case LoadTargetCr3(c) => c < |s.cpus| && s.cpus[c].handler.GotCr3?
    case LoadTargetPage(c) => c < |s.cpus| && s.cpus[c].handler.Matched?
    case FlushPage(c) => c < |s.cpus| && s.cpus[c].handler.GotPage?
    case StoreAck(c) => c < |s.cpus| && s.cpus[c].handler.Acking?
    case Begin(c, d, addr) => s.txn == NoTxn && c < |s.cpus| && (d, PageOf(addr)) !in s.mapped
    case Advance(_) => s.txn.Txn? && !Complete(s) && TargetsExist(s)
    case Timeout => s.txn.Txn? && (s.txn.phase.PollingCr3? || s.txn.phase.PollingAck?)
    case ReturnTrue => s.txn.Txn? && Complete(s)
  }

  /** The sender found no target, or a polling pass went through all of them. */
  predicate Complete(s: State)
    requires s.txn.Txn?
  {
    || (s.txn.phase.Scanning? && s.txn.phase.next >= |s.cpus| && s.txn.targets == [])
    || (s.txn.phase.PollingCr3? && s.txn.phase.j >= |s.txn.targets|)
  }

  predicate TargetsExist(s: State)
    requires s.txn.Txn?
  {
    && (forall i | 0 <= i < |s.txn.targets| :: s.txn.targets[i] < |s.cpus|)
    && (s.txn.phase.PollingAck? ==> s.txn.phase.j < |s.txn.targets|)
  }

  function Set(s: State, c: nat, cpu: Cpu): State
    requires c < |s.cpus|
  {
    s.(cpus := s.cpus[c := cpu])
  }

  function Step(s: State, a: Action): State
    requires Enabled(s, a)
  {
    match a
    case Online(c, d) => Set(s, c, s.cpus[c].(online := true, cr3 := d, tlb := {}, handler := Quiet))
    case Switch(c, d) => Set(s, c, s.cpus[c].(cr3 := d, tlb := {}))
    case Fill(c, p) => Set(s, c, s.cpus[c].(tlb := s.cpus[c].tlb + {p}))
    case Evict(c, p) => Set(s, c, s.cpus[c].(tlb := s.cpus[c].tlb - {p}))
    case Map(d, p) => s.(mapped := s.mapped + {(d, p)})
    case Unmap(d, p) => s.(mapped := s.mapped - {(d, p)})
    case LoadEpoch(c) => Set(s, c, s.cpus[c].(ipi := false, handler := GotEpoch(s.epoch)))
    case ReadCr3(c) => Set(s, c, s.cpus[c].(handler := GotCr3(s.cpus[c].handler.epoch, s.cpus[c].cr3)))
    case LoadTargetCr3(c) =>
      var h := s.cpus[c].handler;
      Set(s, c, s.cpus[c].(handler := if h.cr3 == s.targetCr3 then Matched(h.epoch) else Acking(h.epoch)))
    case LoadTargetPage(c) => Set(s, c, s.cpus[c].(handler := GotPage(s.cpus[c].handler.epoch, s.targetPage)))
    case FlushPage(c) =>
      var h := s.cpus[c].handler;
      Set(s, c, s.cpus[c].(tlb := s.cpus[c].tlb - {h.page}, handler := Acking(h.epoch)))
    case StoreAck(c) => Set(s, c, s.cpus[c].(ack := s.cpus[c].handler.epoch, handler := Quiet))
    case Begin(c, d, addr) => s.(txn := Txn(c, d, addr, PageOf(addr), [], Scanning(0)))
    case Advance(delivered) => AdvanceTxn(s, delivered)
    case Timeout => s.(txn := NoTxn)
    case ReturnTrue => s.(txn := NoTxn)
  }

  function AdvanceTxn(s: State, delivered: bool): State
    requires Enabled(s, Advance(delivered))
  {
    var t := s.txn;
    match t.phase
    case Scanning(n) =>
      if n >= |s.cpus| then s.(txn := t.(phase := StoringCr3))
      else if s.cpus[n].online && n != t.sender && s.cpus[n].cr3 == t.dir then
        s.(txn := t.(targets := t.targets + [n], phase := Scanning(n + 1)))
      else s.(txn := t.(phase := Scanning(n + 1)))
    case StoringCr3 => s.(targetCr3 := t.dir, txn := t.(phase := StoringPage))
    case StoringPage => s.(targetPage := t.page, txn := t.(phase := Bumping))
    case Bumping => s.(epoch := s.epoch + 1, txn := t.(phase := Sending(0)))
    case Sending(i) =>
      if i >= |t.targets| then s.(txn := t.(phase := PollingCr3(0)))
      else
        var c := t.targets[i];
        var s1 := if delivered then Set(s, c, s.cpus[c].(ipi := true)) else s;
        s1.(txn := t.(phase := Sending(i + 1)))
    case PollingCr3(j) =>
      if s.cpus[t.targets[j]].cr3 != t.dir then s.(txn := t.(phase := PollingCr3(j + 1)))
      else s.(txn := t.(phase := PollingAck(j)))
    case PollingAck(j) =>
      // An unacknowledged target restarts the pass.
      s.(txn := t.(phase := PollingCr3(if s.cpus[t.targets[j]].ack == s.epoch then j + 1 else 0)))
  }

  // ---- Invariant ----

  /** The 4 KiB page at `page` is the one `addr` lies in. */
  predicate Covers(page: Page, addr: nat) { page % 4096 == 0 && page <= addr < page + 4096 }

  /** The CPU is running on `dir` and still holds a translation of `page`. */
  predicate Stale(c: Cpu, dir: PageDir, page: Page) {
    c.online && c.cr3 == dir && page in c.tlb
  }

  predicate Clean(s: State, sender: nat, dir: PageDir, page: Page) {
    forall c | 0 <= c < |s.cpus| && c != sender :: !Stale(s.cpus[c], dir, page)
  }

  predicate Bumped(p: Phase) { p.Sending? || p.PollingCr3? || p.PollingAck? }

  predicate HandlerInv(c: Cpu, epoch: nat) {
    && c.ack <= epoch
    && (c.handler != Quiet ==> c.handler.epoch <= epoch && c.online)
    && (c.handler.GotCr3? ==> c.handler.cr3 == c.cr3)
  }

  /** A CPU that acknowledged the running transaction, or is about to, has dropped the entry. */
  predicate AckMeansClean(c: Cpu, s: State)
    requires s.txn.Txn?
  {
    && (c.handler.GotPage? && c.handler.epoch == s.epoch ==> c.handler.page == s.txn.page)
    && (c.ack == s.epoch || c.handler == Acking(s.epoch) ==> !Stale(c, s.txn.dir, s.txn.page))
  }

  predicate TxnInv(s: State)
    requires s.txn.Txn?
  {
    var t := s.txn;
    && (t.dir, t.page) !in s.mapped && Covers(t.page, t.addr)
    && TargetsExist(s)
    && (t.phase.Scanning? ==> t.phase.next <= |s.cpus|)
    && (forall c | 0 <= c < (if t.phase.Scanning? then t.phase.next else |s.cpus|) && c != t.sender ::
          Stale(s.cpus[c], t.dir, t.page) ==> c in t.targets)
    && (t.phase.StoringPage? || t.phase.Bumping? || Bumped(t.phase) ==> s.targetCr3 == t.dir)
    && (t.phase.Bumping? || Bumped(t.phase) ==> s.targetPage == t.page)
    && (Bumped(t.phase) ==> forall c | 0 <= c < |s.cpus| :: AckMeansClean(s.cpus[c], s))
    && (t.phase.PollingCr3? || t.phase.PollingAck? ==>
          t.phase.j <= |t.targets| &&
          forall i | 0 <= i < t.phase.j :: !Stale(s.cpus[t.targets[i]], t.dir, t.page))
  }

  predicate Inv(s: State) {
    && (forall c | 0 <= c < |s.cpus| :: HandlerInv(s.cpus[c], s.epoch))
    && (s.txn.Txn? ==> TxnInv(s))
  }

  predicate Init(s: State) {
    && s.txn == NoTxn
    && forall c | 0 <= c < |s.cpus| :: s.cpus[c].ack == 0 && s.cpus[c].handler == Quiet
  }

  /** One CPU changes. The invariant only asks that it gains no stale entry, keeps its handler in order,
      and has dropped the entry by the time it acknowledges. */
  lemma {:induction false} CpuChangeInv(s: State, c: nat, cpu: Cpu)
    requires Inv(s) && c < |s.cpus| && HandlerInv(cpu, s.epoch)
    requires s.txn.Txn? ==>
               && (Stale(cpu, s.txn.dir, s.txn.page) ==> Stale(s.cpus[c], s.txn.dir, s.txn.page))
               && (Bumped(s.txn.phase) ==> AckMeansClean(cpu, s))
    ensures Inv(Set(s, c, cpu))
  {
    hide HandlerInv, Stale;
  }

  lemma {:induction false} CpuBefore(s: State, c: nat)
    requires Inv(s) && c < |s.cpus|
    ensures HandlerInv(s.cpus[c], s.epoch)
    ensures s.txn.Txn? ==> (s.txn.dir, s.txn.page) !in s.mapped
    ensures s.txn.Txn? && Bumped(s.txn.phase) ==>
              AckMeansClean(s.cpus[c], s) && s.targetCr3 == s.txn.dir && s.targetPage == s.txn.page
  {
    hide HandlerInv, Stale, AckMeansClean, Bumped;
  }

  lemma {:induction false} HandlerLoadInv(s: State, a: Action)
    requires Inv(s) && Enabled(s, a) && (a.LoadEpoch? || a.ReadCr3? || a.LoadTargetCr3?)
    ensures Inv(Step(s, a))
  {
    hide Inv;
    CpuBefore(s, a.cpu);
    CpuChangeInv(s, a.cpu, Step(s, a).cpus[a.cpu]);
  }

  lemma {:induction false} HandlerFlushInv(s: State, a: Action)
    requires Inv(s) && Enabled(s, a) && (a.LoadTargetPage? || a.FlushPage? || a.StoreAck?)
    ensures Inv(Step(s, a))
  {
    hide Inv;
    CpuBefore(s, a.cpu);
    CpuChangeInv(s, a.cpu, Step(s, a).cpus[a.cpu]);
  }

  lemma {:induction false} EnvironmentStepInv(s: State, a: Action)
    requires Inv(s) && Enabled(s, a)
    requires a.Online? || a.Switch? || a.Fill? || a.Evict? || a.Map? || a.Unmap?
    ensures Inv(Step(s, a))
  {
    if a.Map? || a.Unmap? {
      MappingInv(s, Step(s, a).mapped);
    } else {
      hide Inv;
      CpuBefore(s, a.cpu);
      CpuChangeInv(s, a.cpu, Step(s, a).cpus[a.cpu]);
    }
  }

  lemma {:induction false} MappingInv(s: State, mapped: set<(PageDir, Page)>)
    requires Inv(s) && (s.txn.Txn? ==> (s.txn.dir, s.txn.page) !in mapped)
    ensures Inv(s.(mapped := mapped))
  {
    hide HandlerInv, Stale;
  }

  lemma {:induction false} ScanInv(s: State)
    requires Inv(s) && Enabled(s, Advance(false)) && s.txn.phase.Scanning?
    ensures Inv(AdvanceTxn(s, false))
  {
    var t, t' := s.txn, AdvanceTxn(s, false).txn;
    assert forall c | c in t.targets :: c in t'.targets;
  }

  lemma {:induction false} SendInv(s: State, delivered: bool)
    requires Inv(s) && Enabled(s, Advance(delivered)) && s.txn.phase.Sending?
    ensures Inv(AdvanceTxn(s, delivered))
  {
  }

  lemma {:induction false} PollInv(s: State)
    requires Inv(s) && Enabled(s, Advance(false)) && (s.txn.phase.PollingCr3? || s.txn.phase.PollingAck?)
    ensures Inv(AdvanceTxn(s, false))
  {
  }

  lemma {:induction false} SenderStepInv(s: State, a: Action)
    requires Inv(s) && Enabled(s, a)
    requires a.Begin? || a.Advance? || a.Timeout? || a.ReturnTrue?
    ensures Inv(Step(s, a))
  {
    if a.Advance? {
      AdvanceInv(s, a.delivered);
    }
  }

  lemma {:induction false} AdvanceInv(s: State, delivered: bool)
    requires Inv(s) && Enabled(s, Advance(delivered))
    ensures Inv(AdvanceTxn(s, delivered))
  {
    if s.txn.phase.Scanning? {
      ScanInv(s);
    } else if s.txn.phase.Sending? {
      SendInv(s, delivered);
    } else if s.txn.phase.PollingCr3? || s.txn.phase.PollingAck? {
      PollInv(s);
    }
  }

  // ---- Runs ----

  predicate Runnable(s: State, run: seq<Action>)
    decreases |run|
  {
    run == [] || (Enabled(s, run[0]) && Runnable(Step(s, run[0]), run[1..]))
  }

  function Run(s: State, run: seq<Action>): State
    requires Runnable(s, run)
    decreases |run|
  {
    if run == [] then s else Run(Step(s, run[0]), run[1..])
  }

  lemma {:induction false} RunInv(s: State, run: seq<Action>)
    requires Inv(s) && Runnable(s, run)
    ensures Inv(Run(s, run))
    decreases |run|
  {
    if run != [] {
      var a := run[0];
      if a.Begin? || a.Advance? || a.Timeout? || a.ReturnTrue? {
        SenderStepInv(s, a);
      } else if a.Online? || a.Switch? || a.Fill? || a.Evict? || a.Map? || a.Unmap? {
        EnvironmentStepInv(s, a);
      } else if a.LoadEpoch? || a.ReadCr3? || a.LoadTargetCr3? {
        HandlerLoadInv(s, a);
      } else {
        HandlerFlushInv(s, a);
      }
      RunInv(Step(s, a), run[1..]);
    }
  }

  /** The call of `shootdown_tlb` that is under way stays the same until it returns. */
  lemma {:induction false} CallStays(s: State, during: seq<Action>)
    requires s.txn.Txn? && Runnable(s, during)
    requires forall a | a in during :: !a.Begin? && !a.Timeout? && !a.ReturnTrue?
    ensures var t := Run(s, during).txn;
            t.Txn? && t.sender == s.txn.sender && t.dir == s.txn.dir && t.addr == s.txn.addr
    decreases |during|
  {
    if during != [] {
      assert during[0] in during;
      CallStays(Step(s, during[0]), during[1..]);
    }
  }

  lemma {:induction false} OnlyOnePage(p: Page, q: Page, addr: nat)
    requires Covers(p, addr) && Covers(q, addr)
    ensures p == q
  {
  }

  /** Whenever the call `shootdown_tlb(dir, addr)` on CPU `c` is about to return true, in any run, no other
      CPU running on that page directory still holds a translation of the page `addr` lies in. */
  lemma {:induction false} TrueMeansClean(s: State, before: seq<Action>, c: nat, dir: PageDir, addr: nat,
                                          during: seq<Action>, page: Page)
    requires Init(s) && Runnable(s, before) && Enabled(Run(s, before), Begin(c, dir, addr))
    requires Runnable(Step(Run(s, before), Begin(c, dir, addr)), during)
    requires forall a | a in during :: !a.Begin? && !a.Timeout? && !a.ReturnTrue?
    requires Enabled(Run(Step(Run(s, before), Begin(c, dir, addr)), during), ReturnTrue)
    requires page % 4096 == 0 && page <= addr < page + 4096
    ensures Clean(Run(Step(Run(s, before), Begin(c, dir, addr)), during), c, dir, page)
  {
    RunInv(s, before);
    var s1 := Step(Run(s, before), Begin(c, dir, addr));
    SenderStepInv(Run(s, before), Begin(c, dir, addr));
    RunInv(s1, during);
    CallStays(s1, during);
    OnlyOnePage(page, Run(s1, during).txn.page, addr);
  }

  /** From then on the page stays out of the other CPUs' reach for as long as nobody maps it again,
      so the frame behind it may be reused. */
  lemma {:induction false} CleanUntilRemapped(s: State, sender: nat, dir: PageDir, page: Page, run: seq<Action>)
    requires Runnable(s, run) && Clean(s, sender, dir, page) && (dir, page) !in s.mapped
    requires Map(dir, page) !in run
    ensures Clean(Run(s, run), sender, dir, page) && (dir, page) !in Run(s, run).mapped
    decreases |run|
  {
    if run != [] {
      assert run[0] in run;
      CleanUntilRemapped(Step(s, run[0]), sender, dir, page, run[1..]);
    }
  }

  lemma {:induction false} InitInv(s: State)
    requires Init(s)
    ensures Inv(s)
  {
  }

  // ---- Delayed and lost IPIs do no lasting harm ----

  /** The handler of `c`, run to its end without anybody else moving. */
  function Handle(s: State, c: nat): State
    requires c < |s.cpus|
  {
    var cpu := s.cpus[c];
    var tlb := if cpu.cr3 == s.targetCr3 then cpu.tlb - {s.targetPage} else cpu.tlb;
    Set(s, c, cpu.(ipi := false, tlb := tlb, ack := s.epoch))
  }

  lemma {:induction false} SetTwice(s: State, c: nat, x: Cpu, y: Cpu)
    requires c < |s.cpus|
    ensures Set(Set(s, c, x), c, y) == Set(s, c, y) && Set(s, c, x).cpus[c] == x
  {
    assert s.cpus[c := x][c := y] == s.cpus[c := y];
  }

  lemma {:induction false} AckRest(s: State, c: nat) returns (run: seq<Action>)
    requires c < |s.cpus| && s.cpus[c].handler.Acking?
    ensures Runnable(s, run)
    ensures Run(s, run) == Set(s, c, s.cpus[c].(ack := s.cpus[c].handler.epoch, handler := Quiet))
  {
    hide Run, Runnable, Set;
    RunNothing(Step(s, StoreAck(c)));
    run := Prefix(s, StoreAck(c), []);
  }

  lemma {:induction false} FlushRest(s: State, c: nat) returns (run: seq<Action>)
    requires c < |s.cpus| && s.cpus[c].handler.Matched?
    ensures Runnable(s, run)
    ensures Run(s, run) == Set(s, c, s.cpus[c].(tlb := s.cpus[c].tlb - {s.targetPage},
                                                ack := s.cpus[c].handler.epoch, handler := Quiet))
  {
    hide Run, Runnable;
    var s1 := Step(s, LoadTargetPage(c));
    var s2 := Step(s1, FlushPage(c));
    run := AckRest(s2, c);
    SetTwice(s, c, s1.cpus[c], s2.cpus[c]);
    SetTwice(s, c, s2.cpus[c], Run(s2, run).cpus[c]);
    run := Prefix(s1, FlushPage(c), run);
    run := Prefix(s, LoadTargetPage(c), run);
  }

  /** The handler's loads up to its decision whether to flush. */
  lemma {:induction false} LoadsDecide(s: State, c: nat)
    requires c < |s.cpus| && s.cpus[c].online && s.cpus[c].ipi && s.cpus[c].handler == Quiet
    ensures var s1 := Step(s, LoadEpoch(c));
            Enabled(s1, ReadCr3(c)) &&
            var s2 := Step(s1, ReadCr3(c));
            Enabled(s2, LoadTargetCr3(c)) &&
            Step(s2, LoadTargetCr3(c)) ==
              Set(s, c, s.cpus[c].(ipi := false,
                                   handler := if s.cpus[c].cr3 == s.targetCr3 then Matched(s.epoch)
                                              else Acking(s.epoch)))
  {
    var s1 := Step(s, LoadEpoch(c));
    var s2 := Step(s1, ReadCr3(c));
    SetTwice(s, c, s1.cpus[c], s2.cpus[c]);
    SetTwice(s, c, s2.cpus[c], Step(s2, LoadTargetCr3(c)).cpus[c]);
  }

  /** One complete handler run, started by whichever IPI, acknowledges the newest transaction. */
  lemma {:induction false} HandlerAcksNewest(s: State, c: nat) returns (run: seq<Action>)
    requires c < |s.cpus| && s.cpus[c].online && s.cpus[c].ipi && s.cpus[c].handler == Quiet
    ensures Runnable(s, run) && Run(s, run) == Handle(s, c)
  {
    hide Run, Runnable, Step;
    LoadsDecide(s, c);
    var s1 := Step(s, LoadEpoch(c));
    var s2 := Step(s1, ReadCr3(c));
    var s3 := Step(s2, LoadTargetCr3(c));
    if s.cpus[c].cr3 == s.targetCr3 {
      run := FlushRest(s3, c);
    } else {
      run := AckRest(s3, c);
    }
    SetTwice(s, c, s3.cpus[c], Run(s3, run).cpus[c]);
    run := Prefix(s2, LoadTargetCr3(c), run);
    run := Prefix(s1, ReadCr3(c), run);
    run := Prefix(s, LoadEpoch(c), run);
  }

  lemma {:induction false} RunNothing(s: State)
    ensures Runnable(s, []) && Run(s, []) == s
  {
  }

  lemma {:induction false} Prefix(s: State, a: Action, rest: seq<Action>) returns (run: seq<Action>)
    requires Enabled(s, a) && Runnable(Step(s, a), rest)
    ensures Runnable(s, run) && Run(s, run) == Run(Step(s, a), rest)
  {
    run := [a] + rest;
    assert run[1..] == rest;
  }

  // ---- The protocol is needed, and it can succeed ----

  /** Without a shootdown other CPUs go on using a page that is gone, whether they came up on its directory or
      switched to it. */
  lemma {:induction false} UnmappingIsNotEnough(dir: PageDir, page: Page) returns (s: State, run: seq<Action>)
    ensures Init(s) && Runnable(s, run) && (dir, page) !in Run(s, run).mapped
    ensures var e := Run(s, run); |e.cpus| == 3 && Stale(e.cpus[1], dir, page) && Stale(e.cpus[2], dir, page)
  {
    hide Run, Runnable;
    var off := Cpu(false, dir + 1, {}, Quiet, 0, false);
    s := State([off, off, off], {}, 0, 0, 0, NoTxn);
    var s1 := Step(s, Map(dir, page));
    var s2 := ComesUp(s1, 1, dir, page);
    var s3 := Step(s2, Online(2, dir + 1));
    var s4 := Step(s3, Switch(2, dir));
    var s5 := Step(s4, Fill(2, page));
    RunNothing(Step(s5, Unmap(dir, page)));
    run := Prefix(s5, Unmap(dir, page), []);
    run := Prefix(s4, Fill(2, page), run);
    run := Prefix(s3, Switch(2, dir), run);
    run := Prefix(s2, Online(2, dir + 1), run);
    run := Prefix(Step(s1, Online(1, dir)), Fill(1, page), run);
    run := Prefix(s1, Online(1, dir), run);
    run := Prefix(s, Map(dir, page), run);
  }

  lemma {:induction false} ComesUp(s: State, c: nat, dir: PageDir, page: Page) returns (e: State)
    requires c < |s.cpus| && !s.cpus[c].online && (dir, page) in s.mapped
    ensures Enabled(s, Online(c, dir)) && Enabled(Step(s, Online(c, dir)), Fill(c, page))
    ensures e == Step(Step(s, Online(c, dir)), Fill(c, page)) && Stale(e.cpus[c], dir, page)
    ensures |e.cpus| == |s.cpus| && e == s.(cpus := e.cpus)
    ensures forall i | 0 <= i < |s.cpus| && i != c :: e.cpus[i] == s.cpus[i]
  {
    e := Step(Step(s, Online(c, dir)), Fill(c, page));
  }

  lemma {:induction false} RunConcat(s: State, r1: seq<Action>, r2: seq<Action>)
    requires Runnable(s, r1) && Runnable(Run(s, r1), r2)
    ensures Runnable(s, r1 + r2) && Run(s, r1 + r2) == Run(Run(s, r1), r2)
    decreases |r1|
  {
    if r1 == [] {
      assert r1 + r2 == r2;
    } else {
      assert (r1 + r2)[1..] == r1[1..] + r2;
      RunConcat(Step(s, r1[0]), r1[1..], r2);
    }
  }

  /** A CPU that can take an interrupt. */
  predicate Ready(c: Cpu) { c.online && c.handler == Quiet }

  predicate TargetsReady(s: State)
    requires s.txn.Txn?
  {
    forall i | 0 <= i < |s.txn.targets| :: s.txn.targets[i] < |s.cpus| && Ready(s.cpus[s.txn.targets[i]])
  }

  /** Every target before position `k` has its interrupt pending. */
  predicate Signalled(s: State, k: nat)
    requires s.txn.Txn? && k <= |s.txn.targets| && TargetsReady(s)
  {
    forall i | 0 <= i < k :: s.cpus[s.txn.targets[i]].ipi
  }

  /** The CPUs differ at most in pending interrupts. */
  predicate SameButIpi(s: State, e: State) {
    && |e.cpus| == |s.cpus|
    && forall c | 0 <= c < |s.cpus| :: e.cpus[c] == s.cpus[c].(ipi := e.cpus[c].ipi)
  }

  /** If no IPI is lost, every target has one pending when the polling begins. */
  lemma {:induction false} AllAreSignalled(s: State, k: nat) returns (run: seq<Action>)
    requires s.txn.Txn? && s.txn.phase == Sending(k) && k <= |s.txn.targets| && TargetsReady(s) && Signalled(s, k)
    ensures Runnable(s, run)
    ensures var e := Run(s, run);
            && e == s.(cpus := e.cpus, txn := s.txn.(phase := PollingCr3(0))) && SameButIpi(s, e)
            && TargetsReady(e) && Signalled(e, |s.txn.targets|)
    decreases |s.txn.targets| - k
  {
    hide Run, Runnable;
    var s1 := Step(s, Advance(true));
    if k == |s.txn.targets| {
      RunNothing(s1);
      run := Prefix(s, Advance(true), []);
    } else {
      run := AllAreSignalled(s1, k + 1);
      run := Prefix(s, Advance(true), run);
    }
  }

  /** Every target before position `k` has acknowledged. */
  predicate Acked(s: State, k: nat)
    requires s.txn.Txn? && k <= |s.txn.targets| && TargetsReady(s)
  {
    forall i | 0 <= i < k :: s.cpus[s.txn.targets[i]].ack == s.epoch
  }

  predicate Distinct(targets: seq<nat>) {
    forall i, j | 0 <= i < j < |targets| :: targets[i] != targets[j]
  }

  /** From position `k` on every target has its interrupt pending. */
  predicate SignalledFrom(s: State, k: nat)
    requires s.txn.Txn? && TargetsReady(s)
  {
    forall i | k <= i < |s.txn.targets| :: s.cpus[s.txn.targets[i]].ipi
  }

  lemma {:induction false} OneAcks(s: State, k: nat) returns (run: seq<Action>)
    requires s.txn.Txn? && k < |s.txn.targets| && TargetsReady(s) && Distinct(s.txn.targets)
    requires Acked(s, k) && SignalledFrom(s, k)
    ensures Runnable(s, run)
    ensures var e := Run(s, run);
            && e == s.(cpus := e.cpus) && |e.cpus| == |s.cpus|
            && TargetsReady(e) && Acked(e, k + 1) && SignalledFrom(e, k + 1)
  {
    hide Run, Runnable;
    run := HandlerAcksNewest(s, s.txn.targets[k]);
  }

  lemma {:induction false} AllAck(s: State, k: nat) returns (run: seq<Action>)
    requires s.txn.Txn? && k <= |s.txn.targets| && TargetsReady(s) && Distinct(s.txn.targets)
    requires Acked(s, k) && SignalledFrom(s, k)
    ensures Runnable(s, run)
    ensures var e := Run(s, run);
            e == s.(cpus := e.cpus) && |e.cpus| == |s.cpus| && TargetsReady(e) && Acked(e, |s.txn.targets|)
    decreases |s.txn.targets| - k
  {
    hide Run, Runnable, Acked, SignalledFrom, TargetsReady, Distinct;
    if k == |s.txn.targets| {
      RunNothing(s);
      run := [];
    } else {
      var first := OneAcks(s, k);
      var rest := AllAck(Run(s, first), k + 1);
      RunConcat(s, first, rest);
      run := first + rest;
    }
  }

  lemma {:induction false} AllPolled(s: State, k: nat) returns (run: seq<Action>)
    requires s.txn.Txn? && s.txn.phase == PollingCr3(k) && k <= |s.txn.targets|
    requires TargetsReady(s) && Acked(s, |s.txn.targets|)
    ensures Runnable(s, run) && Run(s, run) == s.(txn := s.txn.(phase := PollingCr3(|s.txn.targets|)))
    decreases |s.txn.targets| - k
  {
    hide Run, Runnable;
    if k == |s.txn.targets| {
      RunNothing(s);
      run := [];
    } else {
      var s1 := Step(s, Advance(false));
      if s1.txn.phase.PollingCr3? {
        run := AllPolled(s1, k + 1);
      } else {
        run := AllPolled(Step(s1, Advance(false)), k + 1);
        run := Prefix(s1, Advance(false), run);
      }
      run := Prefix(s, Advance(false), run);
    }
  }

  /** Whenever the sender has its targets and all of them can take an interrupt, the shootdown can succeed:
      with the IPIs delivered and the handlers run, the very next polling pass returns true, one epoch on. */
  lemma {:induction false} ShootdownCanSucceed(s: State) returns (run: seq<Action>)
    requires s.txn.Txn? && s.txn.phase == StoringCr3 && TargetsReady(s) && Distinct(s.txn.targets)
    ensures Runnable(s, run) && Enabled(Run(s, run), ReturnTrue)
    ensures var e := Run(s, run); e.epoch == s.epoch + 1 && e.targetCr3 == s.txn.dir && e.targetPage == s.txn.page
    ensures Run(s, run).txn == s.txn.(phase := PollingCr3(|s.txn.targets|))
  {
    hide Run, Runnable, TargetsReady, Distinct, TargetsExist, Step;
    StillReady(s, s);
    var s3 := Announced(s);
    StillReady(s, s3);
    run := SendAndPoll(s3);
    run := Announce(s, run);
  }

  /** Target directory and page stored, and the epoch bumped. */
  function Announced(s: State): State
    requires s.txn.Txn?
  {
    s.(targetCr3 := s.txn.dir, targetPage := s.txn.page, epoch := s.epoch + 1, txn := s.txn.(phase := Sending(0)))
  }

  lemma {:induction false} Announce(s: State, rest: seq<Action>) returns (run: seq<Action>)
    requires s.txn.Txn? && s.txn.phase == StoringCr3 && TargetsExist(s) && Runnable(Announced(s), rest)
    ensures Runnable(s, run) && Run(s, run) == Run(Announced(s), rest)
  {
    hide Run, Runnable;
    var s1 := Step(s, Advance(false));
    var s2 := Step(s1, Advance(false));
    run := Prefix(s2, Advance(false), rest);
    run := Prefix(s1, Advance(false), run);
    run := Prefix(s, Advance(false), run);
  }

  lemma {:induction false} StillReady(s: State, e: State)
    requires s.txn.Txn? && e.txn.Txn? && e.cpus == s.cpus && e.txn.targets == s.txn.targets && TargetsReady(s)
    ensures TargetsReady(e) && (!e.txn.phase.PollingAck? ==> TargetsExist(e)) && Signalled(e, 0) && Acked(e, 0)
  {
  }

  lemma {:induction false} SendAndPoll(s: State) returns (run: seq<Action>)
    requires s.txn.Txn? && s.txn.phase == Sending(0) && TargetsReady(s) && Distinct(s.txn.targets)
    ensures Runnable(s, run)
    ensures var e := Run(s, run); e == s.(cpus := e.cpus, txn := s.txn.(phase := PollingCr3(|s.txn.targets|)))
  {
    hide Run, Runnable, TargetsReady, Distinct, Acked;
    StillReady(s, s);
    var send := AllAreSignalled(s, 0);
    var s1 := Run(s, send);
    StillReady(s1, s1);
    var ack := AllAck(s1, 0);
    var s2 := Run(s1, ack);
    var poll := AllPolled(s2, 0);
    RunConcat(s1, ack, poll);
    RunConcat(s, send, ack + poll);
    run := send + (ack + poll);
  }

  /** The scan finds exactly the other online CPUs on the directory. Without any there is nothing to do. */
  lemma {:induction false} ScanFinds(s: State, k: nat) returns (run: seq<Action>)
    requires s.txn.Txn? && s.txn.phase == Scanning(k) && k <= |s.cpus|
    requires forall c: nat :: c in s.txn.targets <==> c < k && Target(s, c)
    requires forall i, j | 0 <= i < j < |s.txn.targets| :: s.txn.targets[i] < s.txn.targets[j]
    ensures Runnable(s, run)
    ensures var e := Run(s, run);
            && e.txn.Txn? && e == s.(txn := s.txn.(targets := e.txn.targets, phase := e.txn.phase))
            && (forall c: nat :: c in e.txn.targets <==> c < |s.cpus| && Target(s, c))
            && Distinct(e.txn.targets)
            && (if e.txn.targets == [] then Enabled(e, ReturnTrue) else e.txn.phase == StoringCr3)
    decreases |s.cpus| - k
  {
    hide Run, Runnable;
    if k == |s.cpus| {
      if s.txn.targets == [] {
        RunNothing(s);
        run := [];
      } else {
        assert forall i | 0 <= i < |s.txn.targets| :: s.txn.targets[i] in s.txn.targets;
        RunNothing(Step(s, Advance(false)));
        run := Prefix(s, Advance(false), []);
      }
    } else {
      assert forall i | 0 <= i < |s.txn.targets| :: s.txn.targets[i] in s.txn.targets;
      var s1 := Step(s, Advance(false));
      ScanStep(s, k);
      run := ScanFinds(s1, k + 1);
      run := Prefix(s, Advance(false), run);
    }
  }

  predicate Target(s: State, c: nat)
    requires s.txn.Txn?
  {
    c < |s.cpus| && c != s.txn.sender && s.cpus[c].online && s.cpus[c].cr3 == s.txn.dir
  }

  lemma {:induction false} ScanStep(s: State, k: nat)
    requires s.txn.Txn? && s.txn.phase == Scanning(k) && k < |s.cpus| && Enabled(s, Advance(false))
    requires forall c: nat :: c in s.txn.targets <==> c < k && Target(s, c)
    ensures var s1 := Step(s, Advance(false));
            && s1 == s.(txn := s.txn.(targets := s1.txn.targets, phase := Scanning(k + 1)))
            && s1.txn.targets == (if Target(s, k) then s.txn.targets + [k] else s.txn.targets)
            && forall c: nat :: c in s1.txn.targets <==> c < k + 1 && Target(s1, c)
  {
  }

  /** A sender is never stuck: it can go on or return, and while it polls it may also time out. */
  lemma {:induction false} SenderIsNeverStuck(s: State, delivered: bool)
    requires Inv(s) && s.txn.Txn?
    ensures Enabled(s, Advance(delivered)) || Enabled(s, ReturnTrue)
    ensures s.txn.phase.PollingCr3? || s.txn.phase.PollingAck? ==> Enabled(s, Timeout)
  {
  }

  /** And a call can begin exactly when none is under way and the page is unmapped. */
  lemma {:induction false} CallCanBegin(s: State, c: nat, dir: PageDir, addr: nat, page: Page)
    requires Covers(page, addr)
    ensures Enabled(s, Begin(c, dir, addr)) <==> s.txn == NoTxn && c < |s.cpus| && (dir, page) !in s.mapped
    ensures Enabled(s, Begin(c, dir, addr)) ==>
              Step(s, Begin(c, dir, addr)) == s.(txn := Txn(c, dir, addr, page, [], Scanning(0)))
  {
    OnlyOnePage(page, PageOf(addr), addr);
  }
}
