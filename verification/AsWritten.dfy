/** Whole runs of the kernel with the page search as kernel/memory/mmanager.c:83-90 writes it. */
module AsWritten {
  import opened Basics
  import opened Pages
  import opened Allocator
  import opened Processes
  import opened Lifecycle

  /** An allocation with the search as written: the new table and the page it returns. */
  ghost function TakeAsWritten(t: seq<Page>, n: int, pid: nat): (seq<Page>, Option<nat>)
    requires n <= |t|
  {
    (StepAsWritten(t, Alloc(n, pid)), AsWrittenStart(t, n, FIRST_PAGE))
  }

  /** One page: always what is intended. */
  lemma TakeOnePage(t: seq<Page>, pid: nat)
    requires WellLinked(t) && 1 <= |t|
    ensures TakeAsWritten(t, 1, pid) == Step(t, Alloc(1, pid))
  {
    AsWrittenOnePage(t);
  }

  /** `kfork` with the search as written. */
  ghost function ForkAsWritten(w: World, b: Birth): (World, nat)
    requires CanFork(w) && 1 <= |w.table|
    requires TakeAsWritten(w.table, 1, 0).1.Some?
    requires TakeAsWritten(TakeAsWritten(w.table, 1, 0).0, 1, 0).1.Some?
  {
    var (t1, body) := TakeAsWritten(w.table, 1, 0);
    var (t2, entry) := TakeAsWritten(t1, 1, 0);
    var pid := NextEmpty(w.slots, w.lapid);
    var (t3, stack) := TakeAsWritten(t2, 1, pid);
    var stackBase := if stack.Some? then stack.value * PAGE_BYTES else 0;
    var proc := Proc(pid, 0, entry.value, body.value, WORD - 1, stackBase, FirstFrame(b, stackBase));
    (w.(table := t3, slots := w.slots[pid := Live(proc)], lapid := pid, active := w.active + 1), pid)
  }

  /** Creation makes one-page requests only, so it is always what is intended. */
  lemma ForkAsWrittenSame(w: World, b: Birth)
    requires WorldOk(w) && CanFork(w)
    ensures 1 <= |w.table| && TakeAsWritten(w.table, 1, 0).1.Some?
    ensures TakeAsWritten(TakeAsWritten(w.table, 1, 0).0, 1, 0).1.Some?
    ensures ForkAsWritten(w, b) == ForkW(w, b)
  {
    var t1 := Step(w.table, Alloc(1, 0)).0;
    var t2 := Step(t1, Alloc(1, 0)).0;
    OneMorePage(w.table, 0);
    OneMorePage(t1, 0);
    TakeOnePage(w.table, 0);
    TakeOnePage(t1, 0);
    TakeOnePage(t2, NextEmpty(w.slots, w.lapid));
  }

  /** Requests of the allocator's callers are no larger than the table. */
  ghost predicate EventInTable(w: World, e: Event) {
    e.Memory? ==> InTable(w.table, e.op)
  }

  /** One event with the search as written. */
  ghost function StepWAsWritten(w: World, e: Event): World
    requires WorldOk(w) && Can(w, e) && EventInTable(w, e)
  {
    match e
    case Tick(regs) => TickW(w, regs).0
    case Fork(birth) => ForkAsWrittenSame(w, birth); ForkAsWritten(w, birth).0
    case Exit(pid) => ExitW(w, pid)
    case Memory(op) => w.(table := StepAsWritten(w.table, op))
  }

  /** Exactly which events go as intended: all but requests of the allocator's callers that find no room where the
      search as written stops. */
  lemma EventAsWrittenExact(w: World, e: Event)
    requires WorldOk(w) && Can(w, e) && EventInTable(w, e)
    ensures StepWAsWritten(w, e) == StepW(w, e) <==> (e.Memory? ==> Guarded(w.table, e.op))
  {
    match e
    case Tick(_) =>
    case Fork(birth) =>
      ForkAsWrittenSame(w, birth);
    case Exit(_) =>
    case Memory(op) =>
      StepAsWrittenExact(w.table, op);
      MemorySame(w, op);
  }

  lemma MemorySame(w: World, op: Op)
    requires WorldOk(w) && Can(w, Memory(op)) && InTable(w.table, op)
    ensures StepWAsWritten(w, Memory(op)) == StepW(w, Memory(op)) <==> StepAsWritten(w.table, op) == Step(w.table, op).0
  {
    assert StepWAsWritten(w, Memory(op)).table == StepAsWritten(w.table, op);
    assert StepW(w, Memory(op)).table == Step(w.table, op).0;
  }

  /** Every request of the run finds room where the search as written stops. */
  ghost predicate AllGuarded(w: World, es: seq<Event>)
    requires WorldOk(w) && CanAll(w, es)
    decreases |es|
  {
    es != [] ==>
      && (es[0].Memory? ==> Guarded(w.table, es[0].op))
      && (StepKeepsOk(w, es[0]); AllGuarded(StepW(w, es[0]), es[1..]))
  }

  /** With the search as written, the run goes through the states that are intended. */
  ghost predicate SameStates(w: World, es: seq<Event>)
    requires WorldOk(w) && CanAll(w, es)
    decreases |es|
  {
    es != [] ==>
      && EventInTable(w, es[0]) && StepWAsWritten(w, es[0]) == StepW(w, es[0])
      && (StepKeepsOk(w, es[0]); SameStates(StepW(w, es[0]), es[1..]))
  }

  /** Exactly the runs of the kernel as it is that are the intended ones, so that all that is proved of runs is true
      of it. */
  lemma {:induction false} RunAsWrittenExact(w: World, es: seq<Event>)
    requires WorldOk(w) && CanAll(w, es)
    ensures SameStates(w, es) <==> AllGuarded(w, es)
    decreases |es|
  {
    if es != [] {
      StepKeepsOk(w, es[0]);
      RunAsWrittenExact(StepW(w, es[0]), es[1..]);
      if EventInTable(w, es[0]) {
        EventAsWrittenExact(w, es[0]);
      }
    }
  }
}
