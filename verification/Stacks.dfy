/** The stack pages of the processes of kernel/proc/scheduler.c.

    A stack is a one-page run of its process, but the owner field of a page has eight bits
    (kernel/memory/mmanager.h:14), so pids that agree modulo 256 look like one owner, and the exit of one
    frees the stacks of the others. */
module Stacks {
  import opened Basics
  import opened Pages
  import opened Allocator
  import opened Processes
  import opened Lifecycle

  /** The live processes that got a stack page. */
  ghost function Stacked(slots: seq<Slot>): set<nat> {
    set p | p in LivePids(slots) && slots[p].proc.stackBase != 0
  }

  ghost function StackPage(slots: seq<Slot>, p: nat): nat
    requires p in LivePids(slots)
  {
    slots[p].proc.stackBase / PAGE_BYTES
  }

  /** The process keeps its stack page: a run with the low byte of its pid as owner. */
  ghost predicate StackOk(slots: seq<Slot>, m: map<nat, Run>, p: nat)
    requires p in LivePids(slots)
  {
    var page := StackPage(slots, p);
    FIRST_PAGE <= page && page in m && m[page] == Run(1, p % 256)
  }

  /** The stack page of `p` is neither list entry nor body of `q`, and not its stack. */
  ghost predicate StackApart(slots: seq<Slot>, p: nat, q: nat)
    requires p in LivePids(slots) && q in LivePids(slots)
  {
    var page, other := StackPage(slots, p), slots[q].proc;
    page != other.entry && page != other.body
    && (p != q && other.stackBase != 0 ==> page != StackPage(slots, q))
  }

  /** Every live process that got a stack page keeps it, alone. */
  ghost predicate StacksHeld(slots: seq<Slot>, m: map<nat, Run>) {
    && (forall p :: p in Stacked(slots) ==> StackOk(slots, m, p))
    && forall p, q :: p in Stacked(slots) && q in LivePids(slots) ==> StackApart(slots, p, q)
  }

  // ----- events

  /** A new process on pages that were in no run keeps the stacks. */
  lemma NewProcKeepsStacks(slots: seq<Slot>, m: map<nat, Run>, m': map<nat, Run>, pid: nat, proc: Proc)
    requires Holdings(slots, m) && StacksHeld(slots, m) && pid < |slots| && slots[pid].Empty?
    requires Takes(m, m', pid, proc)
    ensures StacksHeld(slots[pid := Live(proc)], m')
  {
    var slots' := slots[pid := Live(proc)];
    assert LivePids(slots') == LivePids(slots) + {pid};
    forall p | p in Stacked(slots')
      ensures StackOk(slots', m', p)
    {
      assert p != pid ==> p in Stacked(slots) && StackOk(slots, m, p);
    }
    forall p, q | p in Stacked(slots') && q in LivePids(slots')
      ensures StackApart(slots', p, q)
    {
      assert p != pid ==> p in Stacked(slots) && StackOk(slots, m, p);
      assert q != pid ==> ProcOk(slots, m, q);
      assert q != pid && q in Stacked(slots) ==> StackOk(slots, m, q);
      assert p != pid && q != pid ==> StackApart(slots, p, q);
    }
  }

  lemma BirthKeepsStacks(w: World, w': World, pid: nat)
    requires WorldOk(w) && StacksHeld(w.slots, Runs(w.table)) && Born(w, w', pid)
    ensures StacksHeld(w'.slots, Runs(w'.table))
  {
    var proc := w'.slots[pid].proc;
    assert w'.slots[pid] == Live(proc);
    NewProcKeepsStacks(w.slots, Runs(w.table), Runs(w'.table), pid, proc);
  }

  /** The process is in both tables, on the same pages. */
  ghost predicate SamePages(slots: seq<Slot>, slots': seq<Slot>, p: nat)
    requires p in LivePids(slots')
  {
    && p in LivePids(slots) && slots'[p].proc.entry == slots[p].proc.entry
    && slots'[p].proc.body == slots[p].proc.body && slots'[p].proc.stackBase == slots[p].proc.stackBase
  }

  /** Slots and runs may only go or stay. */
  ghost predicate Left(slots: seq<Slot>, slots': seq<Slot>, m: map<nat, Run>, m': map<nat, Run>) {
    && (forall p :: p in LivePids(slots') ==> SamePages(slots, slots', p))
    && forall s :: s in m && s in m' ==> m'[s] == m[s]
  }

  /** The stacks are held afterwards exactly if the runs of the stack pages that are left are still there. */
  lemma LeftStacks(slots: seq<Slot>, slots': seq<Slot>, m: map<nat, Run>, m': map<nat, Run>)
    requires StacksHeld(slots, m) && Left(slots, slots', m, m')
    ensures StacksHeld(slots', m') <==> forall p :: p in Stacked(slots') ==> StackPage(slots', p) in m'
  {
    forall p | p in Stacked(slots')
      ensures StackOk(slots', m', p) <==> StackPage(slots', p) in m'
    {
      assert SamePages(slots, slots', p);
      assert StackOk(slots, m, p);
    }
    forall p, q | p in Stacked(slots') && q in LivePids(slots')
      ensures StackApart(slots', p, q)
    {
      assert SamePages(slots, slots', p) && SamePages(slots, slots', q);
      assert StackApart(slots, p, q);
    }
  }

  /** A stack page is among the runs that an exit removes exactly if its owner looks like the exiting process. */
  lemma StackGoes(slots: seq<Slot>, m: map<nat, Run>, pid: nat, p: nat)
    requires StacksHeld(slots, m) && pid in LivePids(slots) && p in Stacked(slots)
    ensures StackPage(slots, p) in m
    ensures StackPage(slots, p) in Starts(m, pid, slots[pid].proc) <==> p % 256 == pid
  {
    assert StackOk(slots, m, p) && StackApart(slots, p, pid);
  }

  /** No other process with a stack has a pid that agrees with `pid` modulo 256, for pids below 256. */
  ghost predicate Unmistaken(slots: seq<Slot>, pid: nat) {
    forall p :: p in Stacked(slots) && p != pid ==> p % 256 != pid
  }

  lemma DeathStacks(w: World, w': World, pid: nat)
    requires StacksHeld(w.slots, Runs(w.table)) && Gone(w, w', pid)
    ensures StacksHeld(w'.slots, Runs(w'.table)) <==> Unmistaken(w.slots, pid)
  {
    var m, m' := Runs(w.table), Runs(w'.table);
    assert Stacked(w'.slots) == Stacked(w.slots) - {pid};
    assert forall p :: p in LivePids(w'.slots) ==> SamePages(w.slots, w'.slots, p);
    LeftStacks(w.slots, w'.slots, m, m');
    forall p | p in Stacked(w.slots) && p != pid
      ensures p in Stacked(w'.slots) && (StackPage(w'.slots, p) in m' <==> p % 256 != pid)
    {
      StackGoes(w.slots, m, pid, p);
    }
  }

  lemma DeathTakesStack(w: World, w': World, pid: nat, p: nat)
    requires StacksHeld(w.slots, Runs(w.table)) && Gone(w, w', pid)
    requires p in Stacked(w.slots) && p != pid && p % 256 == pid
    ensures p in LivePids(w'.slots)
    ensures StackPage(w.slots, p) in Runs(w.table) && StackPage(w.slots, p) !in Runs(w'.table)
  {
    StackGoes(w.slots, Runs(w.table), pid, p);
  }

  /** Exactly when the exit of a process leaves the others their stacks: when no other process with a stack has
      a pid that agrees with its own modulo 256. */
  lemma ExitKeepsStacksExactly(w: World, pid: nat)
    requires WorldOk(w) && CanExit(w, pid) && StacksHeld(w.slots, Runs(w.table))
    ensures var w' := ExitW(w, pid);
      StacksHeld(w'.slots, Runs(w'.table)) <==> Unmistaken(w.slots, pid)
  {
    ExitKeepsOk(w, pid);
    DeathStacks(w, ExitW(w, pid), pid);
  }

  /** What a call of the allocator must leave alone. */
  ghost predicate OpSparesStacks(w: World, op: Op)
    requires Enabled(w.table, op)
  {
    match op
    case Alloc(_, _) => true
    case Free(addr) =>
      forall p :: p in Stacked(w.slots) ==> StackPage(w.slots, p) != RunStart(w.table, addr / PAGE_BYTES)
    case FreePid(q, k) =>
      forall p :: p in Stacked(w.slots) ==> StackPage(w.slots, p) !in Doomed(Runs(w.table), q, k)
  }

  lemma MemoryKeepsStacksExactly(w: World, op: Op)
    requires WorldOk(w) && Enabled(w.table, op) && StacksHeld(w.slots, Runs(w.table))
    ensures StacksHeld(w.slots, Runs(Step(w.table, op).0)) <==> OpSparesStacks(w, op)
  {
    var m, m' := Runs(w.table), Runs(Step(w.table, op).0);
    match op {
      case Alloc(n, q) => AllocRuns(w.table, n, q);
      case Free(addr) => EraseRemovesRuns(w.table, {RunStart(w.table, addr / PAGE_BYTES)});
      case FreePid(q, k) => EraseRemovesRuns(w.table, Doomed(m, q, k));
    }
    LeftStacks(w.slots, w.slots, m, m');
    forall p | p in Stacked(w.slots)
      ensures StackPage(w.slots, p) in m
    {
      assert StackOk(w.slots, m, p);
    }
  }

  /** What can be checked before an event: an exiting process shares its low byte with no other that has a stack,
      and the allocator is not asked to free a stack. */
  ghost predicate SparesStacks(w: World, e: Event)
    requires WorldOk(w) && Can(w, e)
  {
    match e
    case Tick(_) => true
    case Fork(_) => true
    case Exit(pid) => Unmistaken(w.slots, pid)
    case Memory(op) => OpSparesStacks(w, op)
  }

  lemma TickKeepsStacks(w: World, regs: Frame)
    requires WorldOk(w) && StacksHeld(w.slots, Runs(w.table))
    ensures StacksHeld(TickW(w, regs).0.slots, Runs(w.table))
  {
    TickKeepsOk(w, regs);
    var m, slots' := Runs(w.table), TickW(w, regs).0.slots;
    assert forall p :: p in LivePids(slots') ==> SamePages(w.slots, slots', p);
    LeftStacks(w.slots, slots', m, m);
    forall p | p in Stacked(slots')
      ensures StackPage(slots', p) in m
    {
      assert StackOk(w.slots, m, p);
    }
  }

  /** Exactly which events leave every live process its stack. */
  lemma StepKeepsStacksExactly(w: World, e: Event)
    requires WorldOk(w) && Can(w, e) && StacksHeld(w.slots, Runs(w.table))
    ensures StacksHeld(StepW(w, e).slots, Runs(StepW(w, e).table)) <==> SparesStacks(w, e)
  {
    match e
    case Tick(regs) =>
      TickKeepsStacks(w, regs);
    case Fork(birth) =>
      ForkKeepsOk(w, birth);
      BirthKeepsStacks(w, ForkW(w, birth).0, ForkW(w, birth).1);
    case Exit(pid) =>
      ExitKeepsStacksExactly(w, pid);
    case Memory(op) =>
      MemoryKeepsStacksExactly(w, op);
  }

  // ----- runs

  ghost predicate AllSpareStacks(w: World, es: seq<Event>)
    requires WorldOk(w) && CanAll(w, es)
    decreases |es|
  {
    es != [] ==> SparesStacks(w, es[0]) && (StepKeepsOk(w, es[0]); AllSpareStacks(StepW(w, es[0]), es[1..]))
  }

  /** Every live process keeps its stack, at every point of the run. */
  ghost predicate StacksAlwaysHeld(w: World, es: seq<Event>)
    requires WorldOk(w) && CanAll(w, es)
    decreases |es|
  {
    && StacksHeld(w.slots, Runs(w.table))
    && (es != [] ==> (StepKeepsOk(w, es[0]); StacksAlwaysHeld(StepW(w, es[0]), es[1..])))
  }

  /** Exactly the runs in which every live process always keeps its stack. */
  lemma {:induction false} RunKeepsStacksExactly(w: World, es: seq<Event>)
    requires WorldOk(w) && CanAll(w, es) && StacksHeld(w.slots, Runs(w.table))
    ensures StacksAlwaysHeld(w, es) <==> AllSpareStacks(w, es)
    decreases |es|
  {
    if es != [] {
      StepKeepsOk(w, es[0]);
      StepKeepsStacksExactly(w, es[0]);
      if SparesStacks(w, es[0]) {
        RunKeepsStacksExactly(StepW(w, es[0]), es[1..]);
      }
    }
  }

  lemma LookalikeLosesStack(w: World, q: nat, p: nat)
    requires WorldOk(w) && StacksHeld(w.slots, Runs(w.table)) && CanExit(w, q)
    requires p in Stacked(w.slots) && p != q && p % 256 == q
    ensures p in LivePids(ExitW(w, q).slots)
    ensures StackPage(w.slots, p) in Runs(w.table) && StackPage(w.slots, p) !in Runs(ExitW(w, q).table)
  {
    ExitKeepsOk(w, q);
    DeathTakesStack(w, ExitW(w, q), q, p);
  }

  lemma LivesOnAfterBirth(w: World, w': World, pid: nat, q: nat)
    requires Born(w, w', pid) && q in LivePids(w.slots)
    ensures q in LivePids(w'.slots)
  {
  }

  lemma LowByte(q: nat)
    requires q < 256
    ensures (q + 256) % 256 == q
  {
  }

  /** The failing run: process `q` lives, creation takes slot `q + 256`, and `q` exits.  The new process lives on
      without its stack page, which the next request may take. */
  lemma ExitFreesForeignStack(w: World, b: Birth, q: nat, w1: World, p: nat)
    requires WorldOk(w) && CanFork(w) && StacksHeld(w.slots, Runs(w.table)) && (w1, p) == ForkW(w, b)
    requires q in LivePids(w.slots) && q < 256 && p == q + 256 && p in Stacked(w1.slots)
    ensures WorldOk(w1) && CanExit(w1, q) && p in LivePids(ExitW(w1, q).slots)
    ensures StackPage(w1.slots, p) in Runs(w1.table) && StackPage(w1.slots, p) !in Runs(ExitW(w1, q).table)
  {
    ForkKeepsOk(w, b);
    LivesOnAfterBirth(w, w1, p, q);
    BirthKeepsStacks(w, w1, p);
    LowByte(q);
    LookalikeLosesStack(w1, q, p);
  }

  /** A world in which that happens: process 1 lives on pages 256 to 258, and 257 was the last pid assigned. */
  ghost function LookalikePage(i: nat): Page {
    if i == 256 || i == 257 then RunPage(1, 0, 0) else if i == 258 then RunPage(1, 0, 1) else CLEARED
  }

  ghost function LookalikeTable(): (t: seq<Page>)
    ensures |t| == 262 && forall i :: 0 <= i < |t| ==> t[i] == LookalikePage(i)
  {
    seq(262, i requires 0 <= i => LookalikePage(i))
  }

  ghost function LookalikeProc(frame: Frame): Proc {
    Proc(1, 0, 256, 257, WORD - 1, 258 * PAGE_BYTES, frame)
  }

  ghost function LookalikeWorld(frame: Frame): World {
    World(LookalikeTable(), FreshSlots()[1 := Live(LookalikeProc(frame))], 1, 257, 1, true)
  }

  lemma LookalikeRuns()
    ensures WellLinked(LookalikeTable())
    ensures Runs(LookalikeTable()) == map[256 := Run(1, 0), 257 := Run(1, 0), 258 := Run(1, 1)]
  {
    var t := LookalikeTable();
    forall i: nat | i < |t|
      ensures BackgroundAt(t, i) && LinkedAt(t, i)
    {
    }
    assert WellLinked(t);
    forall s: nat | s < |t|
      ensures StartsRun(t, s) <==> 256 <= s <= 258
      ensures RunLength(t, s) == 1
    {
    }
  }

  lemma LookalikeWorldOk(frame: Frame)
    ensures WorldOk(LookalikeWorld(frame)) && StacksHeld(LookalikeWorld(frame).slots, Runs(LookalikeTable()))
    ensures LivePids(LookalikeWorld(frame).slots) == {1}
  {
    LookalikeRuns();
    var w := LookalikeWorld(frame);
    assert LivePids(w.slots) == {1};
    assert ProcOk(w.slots, Runs(w.table), 1);
    assert StackOk(w.slots, Runs(w.table), 1) && StackApart(w.slots, 1, 1);
  }

  /** The three pages that creation takes in a table whose pages below `p` are not clear. */
  lemma TakesNextPage(t: seq<Page>, p: nat, pid: nat)
    requires FIRST_PAGE <= p < |t| && t[p].Clear() && forall k :: FIRST_PAGE <= k < p ==> !t[k].Clear()
    ensures Step(t, Alloc(1, pid)) == (Allocate(t, p, 1, pid % 256), Some(p))
  {
    assert Fits(t, p, 1);
    assert forall k :: FIRST_PAGE <= k < p ==> !Fits(t, k, 1);
  }

  lemma LookalikeForks(frame: Frame, b: Birth)
    ensures CanFork(LookalikeWorld(frame))
    ensures var (w1, p) := ForkW(LookalikeWorld(frame), b);
      p == 257 && p < |w1.slots| && w1.slots[p].Live? && w1.slots[p].proc.stackBase == 261 * PAGE_BYTES
  {
    var w, t := LookalikeWorld(frame), LookalikeTable();
    var t1 := Allocate(t, 259, 1, 0);
    var t2 := Allocate(t1, 260, 1, 0);
    TakesNextPage(t, 259, 0);
    TakesNextPage(t1, 260, 0);
    TakesNextPage(t2, 261, 257);
    assert w.slots[257].Empty?;
  }

  /** So the failing run exists: from this world creation takes slot 257 with a stack, and the exit of process 1
      frees it. */
  lemma ForeignStackIsFreed(frame: Frame, b: Birth)
    ensures WorldOk(LookalikeWorld(frame)) && CanFork(LookalikeWorld(frame))
    ensures var (w1, p) := ForkW(LookalikeWorld(frame), b);
      && p == 257 && p in Stacked(w1.slots) && WorldOk(w1) && CanExit(w1, 1)
      && p in LivePids(ExitW(w1, 1).slots) && StackPage(w1.slots, p) !in Runs(ExitW(w1, 1).table)
  {
    LookalikeWorldOk(frame);
    LookalikeForks(frame, b);
    var (w1, p) := ForkW(LookalikeWorld(frame), b);
    ExitFreesForeignStack(LookalikeWorld(frame), b, 1, w1, p);
  }
}
