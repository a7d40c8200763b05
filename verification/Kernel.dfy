/** The scheduler of kernel/proc/scheduler.c as the object its calls update in place, joined with the page
    table it allocates from.  Each call is proved to take the state to the one that `Processes` names. */
module Kernels {
  import opened Basics
  import opened Pages
  import opened Allocator
  import opened PageTables
  import opened Boot
  import opened Processes
  import opened Lifecycle

  lemma NextEmptyStep(s: seq<Slot>, from: nat)
    requires from < |s| && !s[from].Empty? && exists q :: 0 <= q < |s| && s[q].Empty?
    ensures NextEmpty(s, if from + 1 == |s| then 0 else from + 1) == NextEmpty(s, from)
    ensures NextEmpty(s, from) != from
  {
  }

  /** The state in which `schedule` calls itself: the save is done and the counter is at the sentinel. */
  ghost function AtSentinel(w: World, regs: Frame): World {
    w.(slots := Save(w.slots, w.cpid, regs), cpid := 0)
  }

  /** A tick by its parts: where the probe stops, and, when it stops at the sentinel, what the discarded
      inner call does. */
  lemma TickParts(w: World, regs: Frame)
    requires WorldOk(w) && w.active != 0 && w.enabled
    ensures WorldOk(TickW(w, regs).0)
    ensures SlotsOk(Save(w.slots, w.cpid, regs))
    ensures var saved, (w', r) := Save(w.slots, w.cpid, regs), TickW(w, regs);
      var probe := LeastLive(saved, w.cpid + 1);
      && w' == w.(slots := saved, cpid := w'.cpid) && 0 < w'.cpid < SLOTS
      && saved[w'.cpid].Live? && r == saved[w'.cpid].proc.frame
      && (probe.Some? ==> w'.cpid == probe.value)
      && (probe.None? ==> 0 < w.cpid && WorldOk(AtSentinel(w, regs)) && TickW(AtSentinel(w, regs), regs).0 == w')
  {
    SomeoneLives(w);
    TickKeepsOk(w, regs);
    SaveKeeps(w.slots, Runs(w.table), w.cpid, regs);
    var saved := Save(w.slots, w.cpid, regs);
    SameNext(w.slots, saved, w.cpid);
    assert saved[0] == Sentinel;
    var inner := AtSentinel(w, regs);
    if LeastLive(saved, w.cpid + 1).None? {
      SomeoneLives(inner);
      assert LeastLive(saved, 0) == LeastLive(saved, 1);
    }
  }

  class Kernel {
    const pages: PageTable
    const slots: array<Slot>
    var cpid: nat
    var lapid: nat
    var active: nat
    var enabled: bool

    ghost function View(): World
      reads this, pages.table, slots
    {
      World(pages.table[..], slots[..], cpid, lapid, active, enabled)
    }

    ghost predicate Valid()
      reads this, pages.table, slots
    {
      pages.table as object != slots && WorldOk(View())
    }

    /** `init_scheduler`: it allocates the slots, and hangs if it cannot. */
    constructor InitScheduler(pages: PageTable)
      requires pages.Valid() && FirstFit(pages.table[..], LIST_PAGES, FIRST_PAGE).Some?
      modifies pages.table
      ensures this.pages == pages && fresh(slots) && Valid()
      ensures View() == World(Step(old(pages.table[..]), Alloc(LIST_PAGES, 0)).0, FreshSlots(), 0, 0, 0, true)
      ensures slots.Length == 0x1_0000 && slots[0] == Sentinel && forall p :: 1 <= p < 0x1_0000 ==> slots[p] == Empty
      ensures cpid == 0 && lapid == 0 && active == 0 && enabled
    {
      this.pages := pages;
      slots := new Slot[SLOTS](i => if i == 0 then Sentinel else Empty);
      cpid, lapid, active, enabled := 0, 0, 0, true;
      new;
      var list := pages.KMalloc(LIST_PAGES);
      assert slots[..] == FreshSlots();
      assert LivePids(FreshSlots()) == {};
    }

    /** The probe of `schedule`: the counter moves on, wrapping at 2^16, to the next slot that is not null.
        The sentinel stops it at slot 0. */
    method Probe()
      requires slots.Length == SLOTS && SlotsOk(slots[..]) && cpid < SLOTS
      modifies this`cpid
      ensures cpid == var r := LeastLive(slots[..], old(cpid) + 1); if r.Some? then r.value else 0
    {
      ghost var s, next := slots[..], LeastLive(slots[..], cpid + 1);
      cpid := (cpid + 1) % SLOTS;
      while slots[cpid].Empty?
        invariant cpid < SLOTS && slots[..] == s
        invariant if cpid == 0 then next == None else LeastLive(s, cpid) == next
        decreases (SLOTS - cpid) % SLOTS
      {
        cpid := (cpid + 1) % SLOTS;
      }
      assert s[cpid] == slots[cpid];
    }

    /** One timer tick. */
    method Schedule(regs: Frame) returns (r: Frame)
      requires Valid()
      modifies this`cpid, slots
      ensures Valid()
      ensures (View(), r) == TickW(old(View()), regs)
      ensures old(active) == 0 || !old(enabled) ==> r == regs && View() == old(View())
      decreases cpid != 0
    {
      if active == 0 || !enabled {
        return regs;
      }
      ghost var w := View();
      ghost var t := pages.table[..];
      TickParts(w, regs);
      if cpid != 0 && slots[cpid].Live? {
        slots[cpid] := Live(slots[cpid].proc.(frame := regs));
      }
      assert slots[..] == Save(w.slots, w.cpid, regs);
      assert pages.table[..] == t;
      Probe();
      if cpid == 0 {
        assert View() == AtSentinel(w, regs);
        var discarded := Schedule(regs);
      }
      r := slots[cpid].proc.frame;
      assert View() == TickW(w, regs).0;
    }

    /** The probe of `register_process`: the counter moves on, wrapping at 2^16, to the next empty slot. */
    method ProbeEmpty()
      requires slots.Length == SLOTS && lapid < SLOTS && exists p :: 0 <= p < |slots[..]| && slots[..][p].Empty?
      modifies this`lapid
      ensures lapid == NextEmpty(slots[..], old(lapid)) < SLOTS
    {
      ghost var s := slots[..];
      ghost var target := NextEmpty(s, lapid);
      while !slots[lapid].Empty?
        invariant lapid < SLOTS && slots[..] == s && NextEmpty(s, lapid) == target
        decreases if lapid <= target then target - lapid else target + SLOTS - lapid
      {
        NextEmptyStep(s, lapid);
        lapid := (lapid + 1) % SLOTS;
      }
      assert s[lapid].Empty?;
    }

    /** `register_process`: takes a page for the list entry and the next empty slot, probing round the
        table.  Nothing but the page table changes when no page is left. */
    method RegisterProcess(proc: Proc, ppid: nat) returns (pid: Option<nat>, ghost entry: Option<nat>)
      requires WellLinked(pages.table[..]) && pages.table as object != slots
      requires slots.Length == SLOTS && lapid < SLOTS && exists p :: 0 <= p < |slots[..]| && slots[..][p].Empty?
      modifies this`lapid, pages.table, slots
      ensures WellLinked(pages.table[..])
      ensures (pages.table[..], entry) == Step(old(pages.table[..]), Alloc(1, 0))
      ensures entry.None? ==> pid == None && slots[..] == old(slots[..]) && lapid == old(lapid)
      ensures entry.Some? ==>
        && pid == Some(NextEmpty(old(slots[..]), old(lapid))) && lapid == pid.value
        && slots[..] == old(slots[..])[lapid := Live(proc.(pid := lapid, ppid := ppid, entry := entry.value))]
    {
      ghost var before := slots[..];
      var page := pages.KMalloc(1);
      entry := page;
      assert slots[..] == before;
      if page.None? {
        return None, entry;
      }
      ghost var t := pages.table[..];
      ProbeEmpty();
      slots[lapid] := Live(proc.(pid := lapid, ppid := ppid, entry := page.value));
      assert pages.table[..] == t;
      return Some(lapid), entry;
    }

    /** `kfork`: the body, the registered list entry, the stack, the first frame, and the count. */
    method KFork(b: Birth) returns (pid: nat)
      requires Valid() && CanFork(View())
      modifies this`lapid, this`active, pages.table, slots
      ensures Valid()
      ensures (View(), pid) == ForkW(old(View()), b)
      ensures pid < slots.Length && slots[pid].Live?
      ensures NewProc(slots[pid].proc, pid, b) && NewPages(old(pages.table[..]), slots[pid].proc)
    {
      ForkKeepsOk(View(), b);
      BirthHolds(View(), b);
      pid := BuildProcess(b);
    }

    /** The body of `kfork`. */
    method BuildProcess(b: Birth) returns (pid: nat)
      requires WellLinked(pages.table[..]) && pages.table as object != slots
      requires slots.Length == SLOTS && lapid < SLOTS && CanFork(View())
      modifies this`lapid, this`active, pages.table, slots
      ensures (View(), pid) == ForkW(old(View()), b)
    {
      ghost var w := View();
      var body := pages.KMalloc(1);
      ghost var t1 := pages.table[..];
      assert slots[..] == w.slots;
      var registered, entry := RegisterProcess(Proc(0, 0, 0, body.value, WORD - 1, 0, b.dirt), 0);
      pid := registered.value;
      ghost var list, t2 := slots[..], pages.table[..];
      var stack := pages.KUMalloc(1, pid);
      assert slots[..] == list;
      var stackBase := if stack.Some? then stack.value * PAGE_BYTES else 0;
      ghost var t3 := pages.table[..];
      var proc := slots[pid].proc.(stackBase := stackBase, frame := FirstFrame(b, stackBase));
      slots[pid] := Live(proc);
      active := active + 1;
      assert pages.table[..] == t3;
      assert slots[..] == w.slots[pid := Live(proc)];
      ForkIs(w, b, t1, body, t2, entry, t3, stack);
    }

    /** The three frees of `exit_proc`. */
    method FreeMemory(pid: nat, proc: Proc)
      requires WellLinked(pages.table[..]) && ExitReady(pages.table[..], pid, proc)
      modifies pages.table
      ensures pages.table[..] == FreeProcess(old(pages.table[..]), pid, proc)
    {
      ghost var t := pages.table[..];
      pages.KFreePid(pid, proc.allocatedPages);
      OneRun(t, pid, proc);
      pages.KFree(proc.body * PAGE_BYTES);
      pages.KFree(proc.entry * PAGE_BYTES);
    }

    /** `exit_proc`. */
    method ExitProc(pid: nat)
      requires Valid() && CanExit(View(), pid)
      modifies this`active, pages.table, slots
      ensures Valid()
      ensures View() == ExitW(old(View()), pid)
    {
      ghost var w := View();
      ExitFrees(w, pid);
      FreeMemory(pid, slots[pid].proc);
      ghost var t := pages.table[..];
      slots[pid] := Empty;
      assert pages.table[..] == t;
      assert active > 0 by { assert LivePids(w.slots) != {}; }
      active := active - 1;
      assert View() == ExitW(w, pid);
      assert WorldOk(View()) by {
        ExitKeepsOk(w, pid);
      }
    }
  }

  /** The kernel's start: `init_memory`, then `init_scheduler`, which hangs without room for its list. */
  method Start(m: seq<Region>) returns (k: Kernel)
    requires GoodMap(m)
    requires FirstFit(BootTable(m, m[|m| - 1].Limit() / PAGE_BYTES), LIST_PAGES, FIRST_PAGE).Some?
    ensures fresh(k) && k.Valid() && k.View() == BootWorld(m, m[|m| - 1].Limit() / PAGE_BYTES)
  {
    var table := InitMemory(m);
    var pages := new PageTable(table);
    k := new Kernel.InitScheduler(pages);
  }

  lemma SameNext(a: seq<Slot>, b: seq<Slot>, c: nat)
    requires |a| == |b| && forall p :: 0 <= p < |a| ==> (a[p].Live? <==> b[p].Live?)
    requires exists q :: 0 <= q < |a| && a[q].Live?
    ensures exists q :: 0 <= q < |b| && b[q].Live?
    ensures NextLive(a, c) == NextLive(b, c)
  {
    var q :| 0 <= q < |a| && a[q].Live?;
    assert b[q].Live?;
  }

  lemma ForkIs(w: World, b: Birth, t1: seq<Page>, body: Option<nat>, t2: seq<Page>, entry: Option<nat>,
               t3: seq<Page>, stack: Option<nat>)
    requires CanFork(w)
    requires (t1, body) == Step(w.table, Alloc(1, 0)) && (t2, entry) == Step(t1, Alloc(1, 0))
    requires (t3, stack) == Step(t2, Alloc(1, NextEmpty(w.slots, w.lapid)))
    ensures body.Some? && entry.Some?
    ensures var pid := NextEmpty(w.slots, w.lapid);
      var stackBase := if stack.Some? then stack.value * PAGE_BYTES else 0;
      var proc := Proc(pid, 0, entry.value, body.value, WORD - 1, stackBase, FirstFrame(b, stackBase));
      ForkW(w, b) == (World(t3, w.slots[pid := Live(proc)], w.cpid, pid, w.active + 1, w.enabled), pid)
  {
  }

  /** The pages that `exit_proc` frees last start runs once the pid's own runs are gone. */
  ghost predicate ExitReady(t: seq<Page>, pid: nat, proc: Proc) {
    var t1 := Erase(t, Doomed(Runs(t), pid, proc.allocatedPages));
    && 0 < pid < WORD && proc.allocatedPages < WORD
    && proc.body in Runs(t1) && proc.entry in Runs(Erase(t1, {proc.body}))
  }

  lemma ExitFrees(w: World, pid: nat)
    requires WorldOk(w) && CanExit(w, pid)
    ensures ExitReady(w.table, pid, w.slots[pid].proc)
  {
    var proc := w.slots[pid].proc;
    assert ProcOk(w.slots, Runs(w.table), pid);
    var t1 := Erase(w.table, Doomed(Runs(w.table), pid, proc.allocatedPages));
    EraseRemovesRuns(w.table, Doomed(Runs(w.table), pid, proc.allocatedPages));
    EraseRemovesRuns(t1, {proc.body});
  }

  lemma OneRun(t: seq<Page>, pid: nat, proc: Proc)
    requires ExitReady(t, pid, proc)
    ensures var t1 := Erase(t, Doomed(Runs(t), pid, proc.allocatedPages));
      var t2 := Erase(t1, {proc.body});
      && proc.body < |t1| && t1[proc.body].Allocated() && RunStart(t1, proc.body) == proc.body
      && proc.entry < |t2| && t2[proc.entry].Allocated() && RunStart(t2, proc.entry) == proc.entry
  {
    var t1 := Erase(t, Doomed(Runs(t), pid, proc.allocatedPages));
    HeldPage(t1, proc.body);
    HeldPage(Erase(t1, {proc.body}), proc.entry);
  }

  lemma HeldPage(t: seq<Page>, page: nat)
    requires page in Runs(t)
    ensures page < |t| && t[page].Allocated() && RunStart(t, page) == page
  {
  }
}
