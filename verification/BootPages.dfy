/** The pages that the kernel itself lives in: those that `init_memory` marks taken (kernel/memory/mmanager.c:70),
    the page table among them, and the process list of `init_scheduler` (kernel/proc/scheduler.c:146).

    The model's page table lies apart from the pages that store it.  In the kernel it does not: once one of
    these pages is freed it can be handed out, and its new owner writes over the table.  This module says
    exactly in which runs none of them is ever freed. */
module BootPages {
  import opened Basics
  import opened Pages
  import opened Allocator
  import opened Boot
  import opened Processes
  import opened Lifecycle

  /** Every run in `kept` is still there. */
  ghost predicate Kept(kept: map<nat, Run>, m: map<nat, Run>) {
    forall s :: s in kept ==> s in m && m[s] == kept[s]
  }

  /** The runs that the kernel lives in: one page each, owned by process 1, or the 64 pages of the process list. */
  ghost predicate KernelRuns(kept: map<nat, Run>) {
    forall s :: s in kept ==> kept[s] == Run(1, 1) || kept[s] == Run(LIST_PAGES, 0)
  }

  // ----- one event

  /** The event frees none of the runs: process 1, which they carry as owner, does not exit, and the allocator is
      not asked to free one.  `kfree_pid` leaves what lies below page 256. */
  ghost predicate SparesKernel(w: World, e: Event, kept: map<nat, Run>)
    requires WorldOk(w) && Can(w, e)
  {
    match e
    case Tick(_) => true
    case Fork(_) => true
    case Exit(pid) => pid == 1 ==> forall s :: s in kept && FIRST_PAGE <= s ==> kept[s].owner != 1
    case Memory(op) => OpSparesKernel(w.table, op, kept)
  }

  ghost predicate OpSparesKernel(t: seq<Page>, op: Op, kept: map<nat, Run>)
    requires Enabled(t, op)
  {
    match op
    case Alloc(_, _) => true
    case Free(addr) => RunStart(t, addr / PAGE_BYTES) !in kept
    case FreePid(q, k) => Doomed(Runs(t), q, k) !! kept.Keys
  }

  /** Removing runs keeps the kernel's exactly if it removes none of them. */
  lemma RemovalKeeps(kept: map<nat, Run>, m: map<nat, Run>, gone: set<nat>)
    requires Kept(kept, m)
    ensures Kept(kept, m - gone) <==> gone !! kept.Keys
  {
    if Kept(kept, m - gone) {
      forall s | s in kept
        ensures s !in gone
      {
        assert s in m - gone;
      }
    }
  }

  lemma OpKeepsKernelExactly(t: seq<Page>, op: Op, kept: map<nat, Run>)
    requires WellLinked(t) && Enabled(t, op) && Kept(kept, Runs(t))
    ensures Kept(kept, Runs(Step(t, op).0)) <==> OpSparesKernel(t, op, kept)
  {
    match op
    case Alloc(n, q) =>
      AllocRuns(t, n, q);
    case Free(addr) =>
      var s := RunStart(t, addr / PAGE_BYTES);
      EraseRemovesRuns(t, {s});
      RemovalKeeps(kept, Runs(t), {s});
      assert {s} !! kept.Keys <==> s !in kept;
    case FreePid(q, k) =>
      EraseRemovesRuns(t, Doomed(Runs(t), q, k));
      RemovalKeeps(kept, Runs(t), Doomed(Runs(t), q, k));
  }

  lemma DeathKeepsKernel(w: World, w': World, pid: nat, kept: map<nat, Run>)
    requires WorldOk(w) && Gone(w, w', pid) && Kept(kept, Runs(w.table)) && KernelRuns(kept)
    ensures Kept(kept, Runs(w'.table)) <==>
      (pid == 1 ==> forall s :: s in kept && FIRST_PAGE <= s ==> kept[s].owner != 1)
  {
    var m, proc := Runs(w.table), w.slots[pid].proc;
    assert ProcOk(w.slots, m, pid);
    RemovalKeeps(kept, m, Starts(m, pid, proc));
    forall s | s in kept
      ensures s in Starts(m, pid, proc) <==> FIRST_PAGE <= s && kept[s].owner == pid
    {
      assert m[s] != Run(1, 0);
    }
  }

  lemma BirthKeepsKernel(m: map<nat, Run>, m': map<nat, Run>, pid: nat, proc: Proc, kept: map<nat, Run>)
    requires Takes(m, m', pid, proc) && Kept(kept, m)
    ensures Kept(kept, m')
  {
  }

  /** Exactly which events leave the kernel all its pages. */
  lemma StepKeepsKernelExactly(w: World, e: Event, kept: map<nat, Run>)
    requires WorldOk(w) && Can(w, e) && Kept(kept, Runs(w.table)) && KernelRuns(kept)
    ensures Kept(kept, Runs(StepW(w, e).table)) <==> SparesKernel(w, e, kept)
  {
    match e
    case Tick(_) =>
    case Fork(birth) =>
      ForkRuns(w, birth);
      var (w', pid) := ForkW(w, birth);
      BirthKeepsKernel(Runs(w.table), Runs(w'.table), pid, w'.slots[pid].proc, kept);
    case Exit(pid) =>
      ExitKeepsOk(w, pid);
      DeathKeepsKernel(w, ExitW(w, pid), pid, kept);
    case Memory(op) =>
      OpKeepsKernelExactly(w.table, op, kept);
  }

  // ----- runs

  ghost predicate AllSpareKernel(w: World, es: seq<Event>, kept: map<nat, Run>)
    requires WorldOk(w) && CanAll(w, es)
    decreases |es|
  {
    es != [] ==>
      SparesKernel(w, es[0], kept) && (StepKeepsOk(w, es[0]); AllSpareKernel(StepW(w, es[0]), es[1..], kept))
  }

  /** The kernel has all its pages at every point of the run. */
  ghost predicate AlwaysKept(w: World, es: seq<Event>, kept: map<nat, Run>)
    requires WorldOk(w) && CanAll(w, es)
    decreases |es|
  {
    && Kept(kept, Runs(w.table))
    && (es != [] ==> (StepKeepsOk(w, es[0]); AlwaysKept(StepW(w, es[0]), es[1..], kept)))
  }

  lemma {:induction false} RunKeepsKernelExactly(w: World, es: seq<Event>, kept: map<nat, Run>)
    requires WorldOk(w) && CanAll(w, es) && Kept(kept, Runs(w.table)) && KernelRuns(kept)
    ensures AlwaysKept(w, es, kept) <==> AllSpareKernel(w, es, kept)
    decreases |es|
  {
    if es != [] {
      StepKeepsOk(w, es[0]);
      StepKeepsKernelExactly(w, es[0], kept);
      if SparesKernel(w, es[0], kept) {
        RunKeepsKernelExactly(StepW(w, es[0]), es[1..], kept);
      }
    }
  }

  /** While the kernel has its pages, no other run, and so nothing that an allocation returns, shares one. */
  lemma KeptLieApart(kept: map<nat, Run>, t: seq<Page>, s: nat, k: nat)
    requires WellLinked(t) && Kept(kept, Runs(t)) && s in kept && k in Runs(t) && k !in kept
    ensures k + Runs(t)[k].pages <= s || s + kept[s].pages <= k
  {
    if k < s {
      RunsAreDisjoint(t, k, s);
    } else {
      RunsAreDisjoint(t, s, k);
    }
  }

  // ----- from boot on

  /** The page that the process list starts at, if there was room for it. */
  ghost function ListPage(m: seq<Region>, size: nat): Option<nat> {
    FirstFit(BootTable(m, size), LIST_PAGES, FIRST_PAGE)
  }

  /** The pages that `init_memory` marks taken, as runs of one page each. */
  ghost function TakenRuns(m: seq<Region>, size: nat): map<nat, Run> {
    map s: nat | s < size && !MarkedFree(m, size, s) :: TakenRun(m, size, s)
  }

  ghost function TakenRun(m: seq<Region>, size: nat, s: nat): Run {
    if s < size && !MarkedFree(m, size, s) then Run(1, 1) else NO_RUN
  }

  /** The kernel's runs after boot. */
  ghost function BootRuns(m: seq<Region>, size: nat): map<nat, Run> {
    var taken := TakenRuns(m, size);
    if ListPage(m, size).Some? then taken[ListPage(m, size).value := Run(LIST_PAGES, 0)] else taken
  }

  lemma BootTableRuns(m: seq<Region>, size: nat)
    ensures Runs(BootTable(m, size)) == TakenRuns(m, size)
  {
    BootPagesBelongToProcessOne(m, size);
  }

  lemma BootKeepsKernel(m: seq<Region>, size: nat)
    requires GoodMap(m) && size == m[|m| - 1].Limit() / PAGE_BYTES
    ensures WorldOk(BootWorld(m, size)) && Runs(BootWorld(m, size).table) == BootRuns(m, size)
    ensures KernelRuns(BootRuns(m, size))
  {
    BootWorldOk(m, size);
    BootIsWellLinked(m, size);
    BootTableRuns(m, size);
    if ListPage(m, size).Some? {
      AllocateAddsRun(BootTable(m, size), ListPage(m, size).value, LIST_PAGES, 0);
    }
  }

  /** The page table itself lies in pages of the kernel. */
  lemma TablePagesAreKernel(m: seq<Region>, size: nat, k: nat)
    requires k < size && MIB <= k * PAGE_BYTES < TableEnd(size)
    ensures FIRST_PAGE <= k && !MarkedFree(m, size, k) && k in BootRuns(m, size)
  {
  }

  /** After boot the exits that spare the kernel are those of all processes but the first. */
  lemma FirstExitNeverSpares(m: seq<Region>, size: nat, w: World, pid: nat)
    requires FIRST_PAGE < size && GoodMap(m) && size == m[|m| - 1].Limit() / PAGE_BYTES
    requires WorldOk(w) && CanExit(w, pid)
    ensures SparesKernel(w, Exit(pid), BootRuns(m, size)) <==> pid != 1
  {
    TablePagesAreKernel(m, size, FIRST_PAGE);
    BootKeepsKernel(m, size);
    assert ListPage(m, size) != Some(FIRST_PAGE) by {
      assert !BootTable(m, size)[FIRST_PAGE].Clear();
    }
    assert BootRuns(m, size)[FIRST_PAGE].owner == 1;
  }

  /** From boot on, exactly the runs in which the kernel keeps all its pages: the first process does not exit
      (`FirstExitNeverSpares`) and no call frees a page of the kernel. */
  lemma BootedRunKeepsKernelExactly(m: seq<Region>, size: nat, es: seq<Event>)
    requires GoodMap(m) && size == m[|m| - 1].Limit() / PAGE_BYTES
    requires WorldOk(BootWorld(m, size)) && CanAll(BootWorld(m, size), es)
    ensures AlwaysKept(BootWorld(m, size), es, BootRuns(m, size)) <==>
      AllSpareKernel(BootWorld(m, size), es, BootRuns(m, size))
  {
    BootKeepsKernel(m, size);
    RunKeepsKernelExactly(BootWorld(m, size), es, BootRuns(m, size));
  }

  // ----- the failing run

  /** Page 256 was the start of a run that the exit of `pid` frees: it is clear afterwards. */
  lemma FreedPageIsClear(t: seq<Page>, pid: nat, proc: Proc, s: nat)
    requires WellLinked(t) && s in OwnedRuns(Runs(t), pid) && proc.allocatedPages == WORD - 1
    ensures s < |t| == |FreeProcess(t, pid, proc)| && FreeProcess(t, pid, proc)[s] == CLEARED
  {
    UnboundedDoom(t, pid);
    assert RunStart(t, s) == s;
  }

  lemma LowestClearIsFirst(t: seq<Page>, n: int)
    requires FIRST_PAGE < |t| && t[FIRST_PAGE].Clear() && n == 1
    ensures FirstFit(t, n, FIRST_PAGE) == Some(FIRST_PAGE)
  {
  }

  /** Boot, creation, exit, creation: the second process's body is page 256, where the page table starts. */
  lemma SecondProcessTakesThePageTable(m: seq<Region>, size: nat, b: Birth, w1: World, pid: nat, b2: Birth)
    requires GoodMap(m) && size == m[|m| - 1].Limit() / PAGE_BYTES && FIRST_PAGE < size
    requires CanFork(BootWorld(m, size)) && (w1, pid) == ForkW(BootWorld(m, size), b)
    requires WorldOk(w1) && CanExit(w1, pid) && CanFork(ExitW(w1, pid))
    ensures var (w3, second) := ForkW(ExitW(w1, pid), b2);
      second < |w3.slots| && w3.slots[second].Live? && w3.slots[second].proc.body == FIRST_PAGE
  {
    FirstExitFreesThePageTable(m, size, b, w1, pid);
    FirstProcessOwns(m, size, b, w1, pid);
    assert ProcOk(w1.slots, Runs(w1.table), pid);
    FreedPageIsClear(w1.table, pid, w1.slots[pid].proc, FIRST_PAGE);
    LowestClearIsFirst(ExitW(w1, pid).table, 1);
  }

  lemma FirstProcessOwns(m: seq<Region>, size: nat, b: Birth, w1: World, pid: nat)
    requires GoodMap(m) && size == m[|m| - 1].Limit() / PAGE_BYTES && FIRST_PAGE < size
    requires CanFork(BootWorld(m, size)) && (w1, pid) == ForkW(BootWorld(m, size), b)
    ensures pid == 1 && FIRST_PAGE in OwnedRuns(Runs(w1.table), pid)
  {
    var w := BootWorld(m, size);
    BootKeepsKernel(m, size);
    assert FIRST_PAGE in BootRuns(m, size) && BootRuns(m, size)[FIRST_PAGE] == Run(1, 1);
    StepKeepsKernelExactly(w, Fork(b), BootRuns(m, size));
    assert w.slots[0] == Sentinel && w.slots[1] == Empty;
  }
}
