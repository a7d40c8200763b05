/** Whole runs of the kernel of kernel/proc/scheduler.c: timer ticks, process creation and exit, and
    allocator calls in any order.  The invariant of the process table holds after each of them, and
    what a process holds comes back when it exits. */
module Lifecycle {
  import opened Basics
  import opened Pages
  import opened Allocator
  import opened Boot
  import opened Processes

  // ----- runs of events

  ghost predicate CanAll(w: World, es: seq<Event>)
    requires WorldOk(w)
    decreases |es|
  {
    es != [] ==> Can(w, es[0]) && (StepKeepsOk(w, es[0]); CanAll(StepW(w, es[0]), es[1..]))
  }

  ghost function RunW(w: World, es: seq<Event>): World
    requires WorldOk(w) && CanAll(w, es)
    decreases |es|
  {
    if es == [] then w else StepKeepsOk(w, es[0]); RunW(StepW(w, es[0]), es[1..])
  }

  /** The process-table invariant over every run: the table stays well linked, `active` stays the number
      of live slots, slot 0 stays the sentinel, and live processes hold their pages alone.  The table lies apart
      from the pages that store it; `BootPages` says in which runs the kernel keeps those. */
  lemma {:induction false} RunKeepsOk(w: World, es: seq<Event>)
    requires WorldOk(w) && CanAll(w, es)
    ensures WorldOk(RunW(w, es))
    decreases |es|
  {
    if es != [] {
      StepKeepsOk(w, es[0]);
      RunKeepsOk(StepW(w, es[0]), es[1..]);
    }
  }

  // ----- what a process holds

  ghost function BelongingStarts(w: World, pid: nat): set<nat>
    requires pid in LivePids(w.slots)
  {
    Starts(Runs(w.table), pid, w.slots[pid].proc)
  }

  /** Nothing that the process holds in `m` differs in `m'`, and it holds nothing more. */
  ghost predicate SameHold(m: map<nat, Run>, m': map<nat, Run>, pid: nat, proc: Proc) {
    && Starts(m', pid, proc) == Starts(m, pid, proc)
    && forall s :: s in Starts(m, pid, proc) ==> s in m && s in m' && m'[s] == m[s]
  }

  /** The process lives on in `w'` and holds what it held in `w`. */
  ghost predicate LivesOn(w: World, w': World, pid: nat) {
    && pid in LivePids(w.slots) && pid in LivePids(w'.slots)
    && w'.slots[pid].proc.entry == w.slots[pid].proc.entry
    && w'.slots[pid].proc.body == w.slots[pid].proc.body
    && SameHold(Runs(w.table), Runs(w'.table), pid, w.slots[pid].proc)
  }

  ghost predicate OpForOthers(t: seq<Page>, op: Op, pid: nat)
    requires Enabled(t, op)
  {
    match op
    case Alloc(_, q) => q % 256 != pid
    case Free(addr) => t[addr / PAGE_BYTES].pid != pid
    case FreePid(q, _) => q != pid
  }

  /** The event is not on behalf of `pid`: nothing is allocated to it, freed from it, and it does not exit. */
  ghost predicate ForOthers(w: World, e: Event, pid: nat)
    requires WorldOk(w) && Can(w, e)
  {
    match e
    case Tick(_) => true
    case Fork(_) => NextEmpty(w.slots, w.lapid) % 256 != pid
    case Exit(q) => q != pid
    case Memory(op) => OpForOthers(w.table, op, pid)
  }

  /** An allocator request adds at most one run, owned by the pid it names. */
  lemma AllocRuns(t: seq<Page>, n: int, q: nat)
    requires WellLinked(t)
    ensures var (t', r) := Step(t, Alloc(n, q));
      || Runs(t') == Runs(t)
      || (r.Some? && 1 <= n && r.value !in Runs(t) && Runs(t') == Runs(t)[r.value := Run(n, q % 256)])
  {
    var r := FirstFit(t, n, FIRST_PAGE);
    if r.Some? {
      if 1 <= n {
        AllocateAddsRun(t, r.value, n, q % 256);
      } else {
        assert Allocate(t, r.value, n, q % 256) == t;
      }
    }
  }

  lemma TableStepKeeps(t: seq<Page>, op: Op, pid: nat, s: nat)
    requires WellLinked(t) && Enabled(t, op)
    requires OpForOthers(t, op, pid) && (op.Free? ==> RunStart(t, op.addr / PAGE_BYTES) != s)
    requires s in Runs(t) && (Runs(t)[s].owner == pid || Runs(t)[s].owner == 0)
    ensures s in Runs(Step(t, op).0) && Runs(Step(t, op).0)[s] == Runs(t)[s]
  {
    match op
    case Alloc(n, q) =>
      AllocRuns(t, n, q);
    case Free(addr) =>
      EraseRemovesRuns(t, {RunStart(t, addr / PAGE_BYTES)});
    case FreePid(q, k) =>
      EraseRemovesRuns(t, Doomed(Runs(t), q, k));
  }

  lemma TableStepAddsNone(t: seq<Page>, op: Op, pid: nat, s: nat)
    requires WellLinked(t) && Enabled(t, op) && OpForOthers(t, op, pid)
    requires s in Runs(Step(t, op).0) && s !in Runs(t)
    ensures Runs(Step(t, op).0)[s].owner != pid
  {
    match op
    case Alloc(n, q) =>
      AllocRuns(t, n, q);
    case Free(addr) =>
      EraseRemovesRuns(t, {RunStart(t, addr / PAGE_BYTES)});
    case FreePid(q, k) =>
      EraseRemovesRuns(t, Doomed(Runs(t), q, k));
  }

  lemma TableStepSameHold(t: seq<Page>, op: Op, pid: nat, proc: Proc)
    requires WellLinked(t) && Enabled(t, op) && OpForOthers(t, op, pid)
    requires Held(Runs(t), proc.entry) && Held(Runs(t), proc.body)
    requires op.Free? ==> RunStart(t, op.addr / PAGE_BYTES) !in {proc.entry, proc.body}
    ensures SameHold(Runs(t), Runs(Step(t, op).0), pid, proc)
  {
    var m, m' := Runs(t), Runs(Step(t, op).0);
    if op.Free? {
      RunAround(t, op.addr / PAGE_BYTES);
    }
    forall s | s in Starts(m, pid, proc)
      ensures s in m && s in m' && m'[s] == m[s]
    {
      TableStepKeeps(t, op, pid, s);
    }
    forall s | s in OwnedRuns(m', pid)
      ensures s in OwnedRuns(m, pid)
    {
      if s !in m {
        TableStepAddsNone(t, op, pid, s);
      } else {
        TableStepKeepsOwner(t, op, s);
      }
    }
    assert OwnedRuns(m', pid) == OwnedRuns(m, pid);
  }

  /** A run that survives a call keeps its owner. */
  lemma TableStepKeepsOwner(t: seq<Page>, op: Op, s: nat)
    requires WellLinked(t) && Enabled(t, op) && s in Runs(t) && s in Runs(Step(t, op).0)
    ensures Runs(Step(t, op).0)[s] == Runs(t)[s]
  {
    match op
    case Alloc(n, q) =>
      AllocRuns(t, n, q);
    case Free(addr) =>
      EraseRemovesRuns(t, {RunStart(t, addr / PAGE_BYTES)});
    case FreePid(q, k) =>
      EraseRemovesRuns(t, Doomed(Runs(t), q, k));
  }

  lemma TakesSameHold(m: map<nat, Run>, m': map<nat, Run>, q: nat, born: Proc, pid: nat, proc: Proc)
    requires Takes(m, m', q, born) && 0 < pid && q % 256 != pid
    requires Held(m, proc.entry) && Held(m, proc.body)
    ensures SameHold(m, m', pid, proc)
  {
    assert OwnedRuns(m', pid) == OwnedRuns(m, pid);
  }

  lemma ExitSameHold(m: map<nat, Run>, q: nat, gone: Proc, pid: nat, proc: Proc)
    requires Held(m, gone.entry) && Held(m, gone.body) && 0 < pid && 0 < q && pid != q
    requires Held(m, proc.entry) && Held(m, proc.body) && {gone.entry, gone.body} !! {proc.entry, proc.body}
    ensures SameHold(m, m - Starts(m, q, gone), pid, proc)
  {
    assert OwnedRuns(m - Starts(m, q, gone), pid) == OwnedRuns(m, pid);
  }

  lemma BirthKeeps(w: World, w': World, q: nat, pid: nat)
    requires WorldOk(w) && Born(w, w', q) && q % 256 != pid && pid in LivePids(w.slots)
    ensures LivesOn(w, w', pid)
  {
    assert ProcOk(w.slots, Runs(w.table), pid);
    TakesSameHold(Runs(w.table), Runs(w'.table), q, w'.slots[q].proc, pid, w.slots[pid].proc);
  }

  lemma DeathKeeps(w: World, w': World, q: nat, pid: nat)
    requires WorldOk(w) && Gone(w, w', q) && q != pid && pid in LivePids(w.slots)
    ensures LivesOn(w, w', pid)
  {
    assert ProcOk(w.slots, Runs(w.table), pid) && ProcOk(w.slots, Runs(w.table), q) && Apart(w.slots, pid, q);
    ExitSameHold(Runs(w.table), q, w.slots[q].proc, pid, w.slots[pid].proc);
  }

  lemma MemoryKeeps(w: World, op: Op, pid: nat)
    requires WorldOk(w) && Can(w, Memory(op)) && OpForOthers(w.table, op, pid) && pid in LivePids(w.slots)
    ensures LivesOn(w, w.(table := Step(w.table, op).0), pid)
  {
    assert ProcOk(w.slots, Runs(w.table), pid);
    TableStepSameHold(w.table, op, pid, w.slots[pid].proc);
  }

  lemma SaveLivesOn(w: World, regs: Frame, next: nat, pid: nat)
    requires WorldOk(w) && pid in LivePids(w.slots)
    ensures LivesOn(w, w.(slots := Save(w.slots, w.cpid, regs), cpid := next), pid)
  {
    assert ProcOk(w.slots, Runs(w.table), pid);
  }

  /** An event for others leaves a process live, with the same pages and the same runs. */
  lemma OthersKeep(w: World, e: Event, pid: nat)
    requires WorldOk(w) && Can(w, e) && ForOthers(w, e, pid) && pid in LivePids(w.slots)
    ensures LivesOn(w, StepW(w, e), pid)
  {
    match e
    case Tick(regs) =>
      SaveLivesOn(w, regs, TickW(w, regs).0.cpid, pid);
      assert ProcOk(w.slots, Runs(w.table), pid);
    case Fork(birth) =>
      ForkKeepsOk(w, birth);
      BirthKeeps(w, ForkW(w, birth).0, ForkW(w, birth).1, pid);
    case Exit(q) =>
      ExitKeepsOk(w, q);
      DeathKeeps(w, ExitW(w, q), q, pid);
    case Memory(op) =>
      MemoryKeeps(w, op, pid);
  }

  ghost predicate AllForOthers(w: World, es: seq<Event>, pid: nat)
    requires WorldOk(w) && CanAll(w, es)
    decreases |es|
  {
    es != [] ==> ForOthers(w, es[0], pid) && (StepKeepsOk(w, es[0]); AllForOthers(StepW(w, es[0]), es[1..], pid))
  }

  lemma {:induction false} OthersKeepAll(w: World, es: seq<Event>, pid: nat)
    requires WorldOk(w) && CanAll(w, es) && AllForOthers(w, es, pid) && pid in LivePids(w.slots)
    ensures LivesOn(w, RunW(w, es), pid)
    decreases |es|
  {
    if es != [] {
      StepKeepsOk(w, es[0]);
      OthersKeep(w, es[0], pid);
      OthersKeepAll(StepW(w, es[0]), es[1..], pid);
    } else {
      assert ProcOk(w.slots, Runs(w.table), pid);
    }
  }

  // ----- creation, other events, exit

  /** What creation takes are the runs that are new in the table.  All of them belong to the new process,
      except a stack page whose owner field, eight bits wide, cannot hold the pid. */
  lemma CreationTakes(m: map<nat, Run>, m': map<nat, Run>, pid: nat, proc: Proc)
    requires Takes(m, m', pid, proc) && 0 < pid
    ensures forall s :: s in m ==> s in m' && m'[s] == m[s]
    ensures pid < 256 ==> Starts(m', pid, proc) == OwnedRuns(m, pid) + (m'.Keys - m.Keys)
    ensures 256 <= pid ==> Starts(m', pid, proc) == {proc.entry, proc.body} && OwnedRuns(m, pid) == {}
    ensures Starts(m', pid, proc) <= m'.Keys
  {
  }

  /** Exactly when creation followed by exit leaves the runs as they were. */
  lemma CreationUndone(m: map<nat, Run>, m': map<nat, Run>, pid: nat, proc: Proc)
    requires Takes(m, m', pid, proc) && 0 < pid
    ensures m' - Starts(m', pid, proc) == m <==> if pid < 256 then OwnedRuns(m, pid) == {} else proc.stackBase == 0
  {
    CreationTakes(m, m', pid, proc);
    var m2 := m' - Starts(m', pid, proc);
    if pid < 256 {
      assert m2 == m - OwnedRuns(m, pid);
      assert forall s :: s in OwnedRuns(m, pid) ==> s in m && s !in m2;
    } else if proc.stackBase != 0 {
      assert proc.stackBase / PAGE_BYTES in m2;
    }
  }

  /** A process's whole life: created in `w`, any events for others, exit.  Exit removes exactly what the
      process held when it was created, and no other run, slot or count. */
  lemma LifetimeConserves(w: World, b: Birth, es: seq<Event>, w1: World, pid: nat)
    requires WorldOk(w) && CanFork(w) && (w1, pid) == ForkW(w, b)
    requires WorldOk(w1) && CanAll(w1, es) && AllForOthers(w1, es, pid)
    ensures Born(w, w1, pid) && LivesOn(w1, RunW(w1, es), pid)
    ensures WorldOk(RunW(w1, es)) && CanExit(RunW(w1, es), pid)
    ensures var w2 := RunW(w1, es);
      var w3 := ExitW(w2, pid);
      && Runs(w3.table) == Runs(w2.table) - BelongingStarts(w1, pid)
      && w3.slots == w2.slots[pid := Empty]
      && w3.active == w2.active - 1
  {
    ForkKeepsOk(w, b);
    LifeEnds(w1, es, pid);
  }

  lemma LifeEnds(w1: World, es: seq<Event>, pid: nat)
    requires WorldOk(w1) && pid in LivePids(w1.slots) && CanAll(w1, es) && AllForOthers(w1, es, pid)
    ensures LivesOn(w1, RunW(w1, es), pid)
    ensures WorldOk(RunW(w1, es)) && CanExit(RunW(w1, es), pid)
    ensures Gone(RunW(w1, es), ExitW(RunW(w1, es), pid), pid)
  {
    OthersKeepAll(w1, es, pid);
    RunKeepsOk(w1, es);
    ExitKeepsOk(RunW(w1, es), pid);
  }

  lemma BornThenGone(w: World, w1: World, w2: World, pid: nat)
    requires Born(w, w1, pid) && Gone(w1, w2, pid)
    ensures w2.slots == w.slots && w2.active == w.active
    ensures Runs(w2.table) == Runs(w.table) <==>
      if pid < 256 then OwnedRuns(Runs(w.table), pid) == {} else w1.slots[pid].proc.stackBase == 0
  {
    CreationUndone(Runs(w.table), Runs(w1.table), pid, w1.slots[pid].proc);
    assert w.slots[pid := w1.slots[pid]][pid := Empty] == w.slots;
  }

  /** Creation followed by exit: the slots and the count always come back; the runs come back exactly when
      none was already owned by the pid, for pids that the owner field can hold, and when no stack page
      was left, for the others. */
  lemma ForkThenExit(w: World, b: Birth, w1: World, pid: nat)
    requires WorldOk(w) && CanFork(w) && (w1, pid) == ForkW(w, b)
    ensures WorldOk(w1) && CanExit(w1, pid)
    ensures ExitW(w1, pid).slots == w.slots && ExitW(w1, pid).active == w.active
    ensures Runs(ExitW(w1, pid).table) == Runs(w.table) <==>
      if pid < 256 then OwnedRuns(Runs(w.table), pid) == {} else w1.slots[pid].proc.stackBase == 0
  {
    ForkKeepsOk(w, b);
    ExitKeepsOk(w1, pid);
    BornThenGone(w, w1, ExitW(w1, pid), pid);
  }

  // ----- the first process

  const LIST_PAGES := 64     // 65536 slots of four bytes

  /** The list holds a four-byte pointer for each of the 2^16 pids. */
  lemma ListHoldsAllPids()
    ensures SLOTS == 0x1_0000 && LIST_PAGES * 4096 == 4 * 0x1_0000
  {
  }

  ghost function FreshSlots(): seq<Slot> {
    seq(SLOTS, i => if i == 0 then Sentinel else Empty)
  }

  /** The kernel after `init_memory` and `init_scheduler`. */
  ghost function BootWorld(m: seq<Region>, size: nat): World {
    World(Step(BootTable(m, size), Alloc(LIST_PAGES, 0)).0, FreshSlots(), 0, 0, 0, true)
  }

  /** The first page that `init_memory` draws free. */
  ghost predicate LowestFree(m: seq<Region>, size: nat, p: nat) {
    p < size && MarkedFree(m, size, p) && forall k: nat :: k < p ==> !MarkedFree(m, size, k)
  }

  ghost predicate FreeStretch(m: seq<Region>, size: nat, p: nat, n: nat) {
    p + n <= size && forall k: nat :: p <= k < p + n ==> MarkedFree(m, size, k)
  }

  lemma BootFits(m: seq<Region>, size: nat, p: nat, n: nat)
    requires 1 <= n
    ensures Fits(BootTable(m, size), p, n) <==> FreeStretch(m, size, p, n)
  {
    forall k: nat | k < size
      ensures BootTable(m, size)[k].Clear() <==> MarkedFree(m, size, k)
    {
    }
  }

  /** Free pages lie above the page table, so above page 256. */
  lemma MarkedFreeIsHigh(m: seq<Region>, size: nat, k: nat)
    requires MarkedFree(m, size, k)
    ensures FIRST_PAGE <= k
  {
  }

  lemma BootStop(m: seq<Region>, size: nat, p: nat)
    ensures FirstFit(BootTable(m, size), 1, FIRST_PAGE) == Some(p) <==> LowestFree(m, size, p)
  {
    var stop := FirstFit(BootTable(m, size), 1, FIRST_PAGE);
    forall k: nat
      ensures Fits(BootTable(m, size), k, 1) <==> k < size && MarkedFree(m, size, k)
      ensures MarkedFree(m, size, k) ==> FIRST_PAGE <= k
    {
      BootFits(m, size, k, 1);
      if MarkedFree(m, size, k) {
        MarkedFreeIsHigh(m, size, k);
      }
    }
  }

  /** Exactly when the request of `init_scheduler`, with the search as written, is the intended one: when the
      first free page, if there is one, starts 64 free pages. */
  lemma BootRequestExact(m: seq<Region>, size: nat)
    requires GoodMap(m) && size == m[|m| - 1].Limit() / PAGE_BYTES && LIST_PAGES <= size
    ensures StepAsWritten(BootTable(m, size), Alloc(LIST_PAGES, 0)) == Step(BootTable(m, size), Alloc(LIST_PAGES, 0)).0
      <==> forall p: nat :: LowestFree(m, size, p) ==> FreeStretch(m, size, p, LIST_PAGES)
  {
    BootIsWellLinked(m, size);
    StepAsWrittenExact(BootTable(m, size), Alloc(LIST_PAGES, 0));
    SmallRequestStop(BootTable(m, size), LIST_PAGES);
    forall p: nat
      ensures FirstFit(BootTable(m, size), 1, FIRST_PAGE) == Some(p) <==> LowestFree(m, size, p)
      ensures Fits(BootTable(m, size), p, LIST_PAGES) <==> FreeStretch(m, size, p, LIST_PAGES)
    {
      BootStop(m, size, p);
      BootFits(m, size, p, LIST_PAGES);
    }
  }

  lemma BootWorldOk(m: seq<Region>, size: nat)
    requires GoodMap(m) && size == m[|m| - 1].Limit() / PAGE_BYTES
    ensures WorldOk(BootWorld(m, size))
  {
    BootIsWellLinked(m, size);
    StepRefines(BootTable(m, size), Alloc(LIST_PAGES, 0));
    assert LivePids(FreshSlots()) == {};
  }

  /** Page 256 holds the start of the page table.  Its entry names process 1 as owner and the first process
      is process 1, so the first exit frees it. */
  lemma FirstExitFreesThePageTable(m: seq<Region>, size: nat, b: Birth, w1: World, pid: nat)
    requires GoodMap(m) && size == m[|m| - 1].Limit() / PAGE_BYTES && FIRST_PAGE < size
    requires CanFork(BootWorld(m, size)) && (w1, pid) == ForkW(BootWorld(m, size), b)
    ensures pid == 1 && WorldOk(w1) && CanExit(w1, pid)
    ensures FIRST_PAGE in Runs(w1.table) && FIRST_PAGE !in Runs(ExitW(w1, pid).table)
  {
    var t := BootTable(m, size);
    var w := BootWorld(m, size);
    BootWorldOk(m, size);
    BootIsWellLinked(m, size);
    BootPagesBelongToProcessOne(m, size);
    assert !MarkedFree(m, size, FIRST_PAGE);
    TableStepKeeps(t, Alloc(LIST_PAGES, 0), 1, FIRST_PAGE);
    ForkKeepsOk(w, b);
    assert w.slots[0] == Sentinel && w.slots[1] == Empty;
    CreationTakes(Runs(w.table), Runs(w1.table), pid, w1.slots[pid].proc);
    ExitKeepsOk(w1, pid);
  }
}
