/** The process table and scheduler of kernel/proc/scheduler.c, as functions of the whole kernel state.

    A slot of the table is empty, the non-null sentinel of slot 0, or a process.  A process owns two
    one-page allocations of the kernel (its list entry and its body) and the runs its pid owns. */
module Processes {
  import opened Basics
  import opened Pages
  import opened Allocator

  const SLOTS := 65536

  /** A saved register frame.  `sp` is the word after `eflags`: the user stack pointer, or the `ss` of a
      ring-0 frame.  `rest` holds the registers that process creation leaves alone. */
  datatype Frame = Frame(eip: nat, esp: nat, ebp: nat, cs: nat, ds: nat, es: nat, gs: nat, eflags: nat, sp: nat,
                         rest: seq<nat>)

  datatype Proc = Proc(pid: nat, ppid: nat, entry: nat, body: nat, allocatedPages: nat, stackBase: nat, frame: Frame)

  datatype Slot = Empty | Sentinel | Live(proc: Proc)

  datatype World = World(table: seq<Page>, slots: seq<Slot>, cpid: nat, lapid: nat, active: nat, enabled: bool)

  // ----- probing the slots

  ghost predicate SlotsOk(slots: seq<Slot>) {
    && |slots| == SLOTS && slots[0] == Sentinel
    && forall p :: 1 <= p < SLOTS ==> slots[p] != Sentinel
  }

  ghost function LivePids(slots: seq<Slot>): set<nat> {
    set p: nat | p < |slots| && slots[p].Live?
  }

  /** The least live pid at or above `lo`. */
  function LeastLive(slots: seq<Slot>, lo: nat): (r: Option<nat>)
    ensures r.None? ==> forall p :: lo <= p < |slots| ==> !slots[p].Live?
    ensures r.Some? ==> lo <= r.value < |slots| && slots[r.value].Live?
    ensures r.Some? ==> forall p :: lo <= p < r.value ==> !slots[p].Live?
    decreases |slots| - lo
  {
    if lo >= |slots| then None
    else if slots[lo].Live? then Some(lo)
    else LeastLive(slots, lo + 1)
  }

  /** The least empty slot at or above `lo`. */
  function LeastEmpty(slots: seq<Slot>, lo: nat): (r: Option<nat>)
    ensures r.None? ==> forall p :: lo <= p < |slots| ==> !slots[p].Empty?
    ensures r.Some? ==> lo <= r.value < |slots| && slots[r.value].Empty?
    ensures r.Some? ==> forall p :: lo <= p < r.value ==> !slots[p].Empty?
    decreases |slots| - lo
  {
    if lo >= |slots| then None
    else if slots[lo].Empty? then Some(lo)
    else LeastEmpty(slots, lo + 1)
  }

  /** Round robin: the least live pid above `c`, else the least live pid. */
  function NextLive(slots: seq<Slot>, c: nat): (p: nat)
    requires exists q :: 0 <= q < |slots| && slots[q].Live?
    ensures p < |slots| && slots[p].Live?
  {
    var r := LeastLive(slots, c + 1);
    if r.Some? then r.value else LeastLive(slots, 0).value
  }

  /** Next fit: the least empty slot at or above `from`, else the least empty slot. */
  function NextEmpty(slots: seq<Slot>, from: nat): (p: nat)
    requires exists q :: 0 <= q < |slots| && slots[q].Empty?
    ensures p < |slots| && slots[p].Empty?
  {
    var r := LeastEmpty(slots, from);
    if r.Some? then r.value else LeastEmpty(slots, 0).value
  }

  /** How far ahead of `from` place `q` lies on a ring of `n`, counting `from` itself as zero. */
  function Ahead(n: nat, from: nat, q: nat): int {
    if from <= q then q - from else q + n - from
  }

  /** The next live pid is the live pid least far ahead of the place after the current one. */
  lemma NextLiveIsNearest(slots: seq<Slot>, c: nat)
    requires c < |slots| && exists q :: 0 <= q < |slots| && slots[q].Live?
    ensures forall q :: 0 <= q < |slots| && slots[q].Live? ==>
      Ahead(|slots|, c + 1, NextLive(slots, c)) <= Ahead(|slots|, c + 1, q)
  {
  }

  /** The next empty slot is the empty slot least far ahead of where the probe starts. */
  lemma NextEmptyIsNearest(slots: seq<Slot>, from: nat)
    requires from < |slots| && exists q :: 0 <= q < |slots| && slots[q].Empty?
    ensures forall q :: 0 <= q < |slots| && slots[q].Empty? ==>
      Ahead(|slots|, from, NextEmpty(slots, from)) <= Ahead(|slots|, from, q)
  {
  }

  // ----- the state that every call keeps

  /** The page is a one-page allocation of the kernel. */
  ghost predicate Held(m: map<nat, Run>, page: nat) {
    page in m && m[page] == Run(1, 0)
  }

  ghost predicate ProcOk(slots: seq<Slot>, m: map<nat, Run>, p: nat)
    requires p < |slots| && slots[p].Live?
  {
    var proc := slots[p].proc;
    && proc.pid == p && proc.allocatedPages == WORD - 1
    && proc.entry != proc.body && Held(m, proc.entry) && Held(m, proc.body)
  }

  /** Different processes hold different pages. */
  ghost predicate Apart(slots: seq<Slot>, p: nat, q: nat)
    requires p < |slots| && q < |slots| && slots[p].Live? && slots[q].Live?
  {
    var a, b := slots[p].proc, slots[q].proc;
    a.entry != b.entry && a.entry != b.body && a.body != b.entry && a.body != b.body
  }

  /** Every live process holds its two pages alone. */
  ghost predicate Holdings(slots: seq<Slot>, m: map<nat, Run>) {
    && (forall p :: p in LivePids(slots) ==> ProcOk(slots, m, p))
    && forall p, q :: p in LivePids(slots) && q in LivePids(slots) && p != q ==> Apart(slots, p, q)
  }

  /** The table is well linked, the pages processes hold are theirs alone, and `active` counts the live slots. */
  ghost predicate WorldOk(w: World) {
    && WellLinked(w.table)
    && SlotsOk(w.slots)
    && w.cpid < SLOTS && w.lapid < SLOTS
    && w.active == |LivePids(w.slots)|
    && Holdings(w.slots, Runs(w.table))
  }

  lemma SomeoneLives(w: World)
    requires WorldOk(w) && w.active != 0
    ensures exists q :: 0 <= q < |w.slots| && w.slots[q].Live?
  {
    assert LivePids(w.slots) != {};
    var q :| q in LivePids(w.slots);
    assert w.slots[q].Live?;
  }

  // ----- what the calls do

  /** The current process's frame is saved.  With no live current process there is nowhere to save it. */
  function Save(slots: seq<Slot>, c: nat, regs: Frame): seq<Slot> {
    if c < |slots| && slots[c].Live? then slots[c := Live(slots[c].proc.(frame := regs))] else slots
  }

  /** One timer tick: the new state and the frame it returns to. */
  ghost function TickW(w: World, regs: Frame): (World, Frame)
    requires WorldOk(w)
  {
    if w.active == 0 || !w.enabled then (w, regs)
    else
      SomeoneLives(w);
      var saved := Save(w.slots, w.cpid, regs);
      assert w.slots[NextLive(w.slots, w.cpid)].Live?;
      var next := NextLive(w.slots, w.cpid);
      (w.(slots := saved, cpid := next), saved[next].proc.frame)
  }

  /** A tick with scheduling off, or with no process, returns what it interrupted and changes nothing. */
  lemma IdleTick(w: World, regs: Frame)
    requires WorldOk(w) && (w.active == 0 || !w.enabled)
    ensures TickW(w, regs) == (w, regs)
  {
  }

  /** What `kfork` is given: the entry point, the arguments on the stack, the flags, and whatever the
      fresh page of the process held. */
  datatype Birth = Birth(eip: nat, argc: nat, eflags: nat, dirt: Frame)

  /** The first frame of a kernel process: the arguments and a zero word are pushed below the stack limit. */
  function FirstFrame(b: Birth, stackBase: nat): Frame {
    var limit := (stackBase + PAGE_BYTES) % WORD;
    b.dirt.(eip := b.eip, esp := (limit + 2 * WORD - 4 * (b.argc % 0x4000_0000) - 8) % WORD, ebp := limit,
            cs := 0x8, ds := 0x10, es := 0x10, gs := 0x10, sp := 0x10, eflags := b.eflags)
  }

  /** What a first frame must hold: the process starts at its entry point, in ring 0, with the flags it was given,
      its base pointer at the stack limit, its stack pointer the arguments and two words below it, and whatever
      its page held in all other registers. */
  ghost predicate StartsAt(f: Frame, b: Birth, stackBase: nat) {
    && f.eip == b.eip && f.eflags == b.eflags
    && f.cs == 0x8 && f.ds == 0x10 && f.es == 0x10 && f.gs == 0x10 && f.sp == 0x10
    && f.ebp == (stackBase + 4096) % 0x1_0000_0000
    && f.esp < 0x1_0000_0000 && (f.esp + 4 * b.argc + 8) % 0x1_0000_0000 == f.ebp
    && f.rest == b.dirt.rest
  }

  lemma FirstFrameStarts(b: Birth, stackBase: nat)
    ensures StartsAt(FirstFrame(b, stackBase), b, stackBase)
  {
    var limit, args := (stackBase + PAGE_BYTES) % WORD, b.argc % 0x4000_0000;
    Unwrap(limit, 4 * args + 8);
    assert 4 * b.argc == 4 * args + b.argc / 0x4000_0000 * WORD;
    WholeWords(FirstFrame(b, stackBase).esp + 4 * args + 8, b.argc / 0x4000_0000);
  }

  /** Adding back what was pushed, in 32-bit words. */
  lemma Unwrap(limit: nat, pushed: nat)
    requires limit < WORD && pushed <= WORD + 4
    ensures ((limit + 2 * WORD - pushed) % WORD + pushed) % WORD == limit
  {
  }

  lemma WholeWords(x: nat, k: nat)
    ensures (x + k * WORD) % WORD == x % WORD
  {
  }

  /** Exactly when the first stack pointer lies in the stack page: when the arguments, counted modulo 2^30, and
      two more words fit in it, or the count is 2^30 - 1, with which it wraps round.  In the first case it is a
      multiple of four below the limit, with room for all that was pushed. */
  lemma FirstStackPointer(b: Birth, page: nat)
    requires FIRST_PAGE <= page < MAX_PAGES
    ensures var base, esp, args := page * PAGE_BYTES, FirstFrame(b, page * PAGE_BYTES).esp, b.argc % 0x4000_0000;
      && (base <= esp < base + PAGE_BYTES <==> args <= 1022 || args == 0x3fff_ffff)
      && (args <= 1022 ==> esp % 4 == 0 && esp + 4 * args + 8 == base + PAGE_BYTES)
  {
    var args := b.argc % 0x4000_0000;
    WrapDown(page * PAGE_BYTES + PAGE_BYTES, 4 * args + 8);
    if args <= 1022 {
      FourDivides(1024 * page + 1022 - args);
    }
  }

  lemma FourDivides(x: nat)
    ensures (4 * x) % 4 == 0
  {
  }

  /** Pushing bytes below a limit, in 32-bit words. */
  lemma WrapDown(limit: nat, pushed: nat)
    requires 4 <= limit <= WORD && 0 < pushed <= WORD + 4
    ensures (limit % WORD + 2 * WORD - pushed) % WORD ==
      if pushed <= limit then limit - pushed else limit + WORD - pushed
  {
    if limit == WORD {
      assert limit % WORD == 0;
    } else {
      assert limit % WORD == limit;
    }
  }

  /** `kfork` follows the pointers of its first two allocations unchecked, and probes until it finds an
      empty slot. */
  ghost predicate CanFork(w: World) {
    && FirstFit(w.table, 1, FIRST_PAGE).Some?
    && FirstFit(Step(w.table, Alloc(1, 0)).0, 1, FIRST_PAGE).Some?
    && exists p :: 0 <= p < |w.slots| && w.slots[p].Empty?
  }

  ghost function ForkW(w: World, b: Birth): (World, nat)
    requires CanFork(w)
  {
    var (t1, body) := Step(w.table, Alloc(1, 0));
    var (t2, entry) := Step(t1, Alloc(1, 0));
    var pid := NextEmpty(w.slots, w.lapid);
    var (t3, stack) := Step(t2, Alloc(1, pid));
    var stackBase := if stack.Some? then stack.value * PAGE_BYTES else 0;
    var proc := Proc(pid, 0, entry.value, body.value, WORD - 1, stackBase, FirstFrame(b, stackBase));
    (w.(table := t3, slots := w.slots[pid := Live(proc)], lapid := pid, active := w.active + 1), pid)
  }

  /** Page `p` is the lowest clear page at or above `from`. */
  ghost predicate NextClear(t: seq<Page>, from: nat, p: nat) {
    from <= p < |t| && t[p].Clear() && forall k :: from <= k < p ==> !t[k].Clear()
  }

  /** The page that a one-page request takes. */
  lemma OnePageTaken(t: seq<Page>, from: nat, pid: nat)
    requires 256 <= from && forall k :: 256 <= k < from && k < |t| ==> !t[k].Clear()
    ensures var (t', r) := Step(t, Alloc(1, pid));
      match r
      case None => t' == t && forall k :: from <= k < |t| ==> !t[k].Clear()
      case Some(p) =>
        NextClear(t, from, p) && |t'| == |t| && !t'[p].Clear() && forall k :: 0 <= k < |t| && k != p ==> t'[k] == t[k]
  {
    var r := FirstFit(t, 1, FIRST_PAGE);
    forall k: nat | k < |t|
      ensures Fits(t, k, 1) <==> t[k].Clear()
    {
    }
  }

  /** What creation puts in the new slot. */
  ghost predicate NewProc(proc: Proc, pid: nat, b: Birth) {
    proc.pid == pid && proc.ppid == 0 && proc.allocatedPages == 0xffff_ffff && StartsAt(proc.frame, b, proc.stackBase)
  }

  /** The pages of a new process: its body is the lowest clear page from page 256 on, its list entry the next one,
      its stack the one after that, if there is one. */
  ghost predicate NewPages(t: seq<Page>, proc: Proc) {
    && NextClear(t, 256, proc.body) && NextClear(t, proc.body + 1, proc.entry)
    && if proc.stackBase == 0 then forall k :: proc.entry < k < |t| ==> !t[k].Clear()
       else proc.stackBase % 4096 == 0 && NextClear(t, proc.entry + 1, proc.stackBase / 4096)
  }

  lemma BirthHolds(w: World, b: Birth)
    requires CanFork(w)
    ensures var (w', pid) := ForkW(w, b);
      && pid < |w'.slots| && w'.slots[pid].Live?
      && NewProc(w'.slots[pid].proc, pid, b) && NewPages(w.table, w'.slots[pid].proc)
  {
    var (t1, body) := Step(w.table, Alloc(1, 0));
    var (t2, entry) := Step(t1, Alloc(1, 0));
    var pid := NextEmpty(w.slots, w.lapid);
    var (t3, stack) := Step(t2, Alloc(1, pid));
    OnePageTaken(w.table, 256, 0);
    OnePageTaken(t1, body.value + 1, 0);
    OnePageTaken(t2, entry.value + 1, pid);
    BirthPages(w.table, t1, t2, body.value, entry.value, stack);
    FirstFrameStarts(b, if stack.Some? then stack.value * PAGE_BYTES else 0);
  }

  lemma BirthPages(t: seq<Page>, t1: seq<Page>, t2: seq<Page>, body: nat, entry: nat, stack: Option<nat>)
    requires |t| == |t1| == |t2| && NextClear(t, 256, body) && NextClear(t1, body + 1, entry)
    requires forall k :: body < k < |t| ==> t1[k] == t[k]
    requires forall k :: entry < k < |t| ==> t2[k] == t[k]
    requires stack.None? ==> forall k :: entry < k < |t| ==> !t2[k].Clear()
    requires stack.Some? ==> NextClear(t2, entry + 1, stack.value)
    ensures NextClear(t, body + 1, entry)
    ensures if stack.None? then forall k :: entry < k < |t| ==> !t[k].Clear() else NextClear(t, entry + 1, stack.value)
    ensures stack.Some? ==> stack.value * 4096 / 4096 == stack.value && stack.value * 4096 % 4096 == 0
  {
  }

  /** The page table after `exit_proc` has freed the pid's runs, then the body, then the list entry. */
  ghost function FreeProcess(t: seq<Page>, pid: nat, proc: Proc): seq<Page> {
    var t1 := Erase(t, Doomed(Runs(t), pid, proc.allocatedPages));
    var t2 := Erase(t1, {proc.body});
    Erase(t2, {proc.entry})
  }

  ghost predicate CanExit(w: World, pid: nat) {
    pid in LivePids(w.slots)
  }

  ghost function ExitW(w: World, pid: nat): World
    requires WorldOk(w) && CanExit(w, pid)
  {
    var freed := FreeProcess(w.table, pid, w.slots[pid].proc);
    assert w.active > 0 by { assert LivePids(w.slots) != {}; }
    w.(table := freed, slots := w.slots[pid := Empty], active := w.active - 1)
  }

  // ----- runs of the kernel

  datatype Event =
    | Tick(regs: Frame)
    | Fork(birth: Birth)
    | Exit(pid: nat)
    | Memory(op: Op)

  /** Callers of the allocator leave the pages of live processes alone. */
  ghost predicate SparesProcesses(w: World, op: Op)
    requires Enabled(w.table, op)
  {
    op.Free? ==>
      forall p :: p in LivePids(w.slots) ==>
        && RunStart(w.table, op.addr / PAGE_BYTES) != w.slots[p].proc.entry
        && RunStart(w.table, op.addr / PAGE_BYTES) != w.slots[p].proc.body
  }

  ghost predicate Can(w: World, e: Event) {
    match e
    case Tick(_) => true
    case Fork(_) => CanFork(w)
    case Exit(pid) => CanExit(w, pid)
    case Memory(op) => Enabled(w.table, op) && SparesProcesses(w, op)
  }

  ghost function StepW(w: World, e: Event): World
    requires WorldOk(w) && Can(w, e)
  {
    match e
    case Tick(regs) => TickW(w, regs).0
    case Fork(birth) => ForkW(w, birth).0
    case Exit(pid) => ExitW(w, pid)
    case Memory(op) => w.(table := Step(w.table, op).0)
  }

  // ----- every call keeps the state

  /** Saving a frame changes nothing that the state depends on. */
  lemma SaveKeeps(slots: seq<Slot>, m: map<nat, Run>, c: nat, regs: Frame)
    requires SlotsOk(slots) && Holdings(slots, m)
    ensures SlotsOk(Save(slots, c, regs)) && Holdings(Save(slots, c, regs), m)
    ensures LivePids(Save(slots, c, regs)) == LivePids(slots)
  {
    var slots' := Save(slots, c, regs);
    assert LivePids(slots') == LivePids(slots);
    forall p | p in LivePids(slots')
      ensures ProcOk(slots', m, p)
    {
      assert ProcOk(slots, m, p);
    }
    forall p, q | p in LivePids(slots') && q in LivePids(slots') && p != q
      ensures Apart(slots', p, q)
    {
      assert Apart(slots, p, q);
    }
  }

  lemma TickKeepsOk(w: World, regs: Frame)
    requires WorldOk(w)
    ensures WorldOk(TickW(w, regs).0)
    ensures LivePids(TickW(w, regs).0.slots) == LivePids(w.slots)
  {
    if w.active != 0 && w.enabled {
      SomeoneLives(w);
      SaveKeeps(w.slots, Runs(w.table), w.cpid, regs);
    }
  }

  /** The runs may change as long as the pages that processes hold stay held. */
  lemma RunsChangeKeeps(slots: seq<Slot>, m: map<nat, Run>, m': map<nat, Run>)
    requires Holdings(slots, m)
    requires forall p :: p in LivePids(slots) ==> Held(m', slots[p].proc.entry) && Held(m', slots[p].proc.body)
    ensures Holdings(slots, m')
  {
    forall p | p in LivePids(slots)
      ensures ProcOk(slots, m', p)
    {
      assert ProcOk(slots, m, p);
    }
  }

  /** A one-page request took page `r` for `owner`, or nothing. */
  ghost predicate Grabs(m: map<nat, Run>, m': map<nat, Run>, r: Option<nat>, owner: Byte) {
    match r
    case None => m' == m
    case Some(page) => page !in m && FIRST_PAGE <= page && m' == m[page := Run(1, owner)]
  }

  lemma OneMorePage(t: seq<Page>, pid: nat)
    requires WellLinked(t)
    ensures WellLinked(Step(t, Alloc(1, pid)).0)
    ensures Grabs(Runs(t), Runs(Step(t, Alloc(1, pid)).0), Step(t, Alloc(1, pid)).1, pid % 256)
  {
    var r := FirstFit(t, 1, FIRST_PAGE);
    if r.Some? {
      AllocateAddsRun(t, r.value, 1, pid % 256);
    }
  }

  /** `m'` is `m` with a body and an entry for the kernel, and a stack page for the pid if one was left. */
  ghost predicate Takes(m: map<nat, Run>, m': map<nat, Run>, pid: nat, proc: Proc) {
    var kept := m[proc.body := Run(1, 0)][proc.entry := Run(1, 0)];
    var stack := proc.stackBase / PAGE_BYTES;
    && proc.body !in m && proc.entry !in m && proc.body != proc.entry
    && FIRST_PAGE <= proc.body && FIRST_PAGE <= proc.entry
    && if proc.stackBase == 0 then m' == kept
       else FIRST_PAGE <= stack && stack !in kept && m' == kept[stack := Run(1, pid % 256)]
  }

  lemma ThreeGrabsTake(m: map<nat, Run>, m1: map<nat, Run>, m2: map<nat, Run>, m3: map<nat, Run>,
                       stack: Option<nat>, pid: nat, proc: Proc)
    requires Grabs(m, m1, Some(proc.body), 0) && Grabs(m1, m2, Some(proc.entry), 0) && Grabs(m2, m3, stack, pid % 256)
    requires proc.stackBase == if stack.Some? then stack.value * PAGE_BYTES else 0
    ensures Takes(m, m3, pid, proc)
  {
  }

  /** What process creation does to the runs. */
  lemma ForkRuns(w: World, b: Birth)
    requires WorldOk(w) && CanFork(w)
    ensures WellLinked(ForkW(w, b).0.table)
    ensures var (w', pid) := ForkW(w, b);
      Takes(Runs(w.table), Runs(w'.table), pid, w'.slots[pid].proc)
  {
    var t1 := Step(w.table, Alloc(1, 0)).0;
    var t2 := Step(t1, Alloc(1, 0)).0;
    var (w', pid) := ForkW(w, b);
    OneMorePage(w.table, 0);
    OneMorePage(t1, 0);
    OneMorePage(t2, pid);
    ThreeGrabsTake(Runs(w.table), Runs(t1), Runs(t2), Runs(w'.table), Step(t2, Alloc(1, pid)).1,
                   pid, w'.slots[pid].proc);
  }

  /** A new process on pages that were in no run keeps the holdings. */
  lemma NewProcKeeps(slots: seq<Slot>, m: map<nat, Run>, m': map<nat, Run>, pid: nat, proc: Proc)
    requires SlotsOk(slots) && Holdings(slots, m) && pid < SLOTS && slots[pid].Empty?
    requires Takes(m, m', pid, proc) && proc.pid == pid && proc.allocatedPages == WORD - 1
    ensures SlotsOk(slots[pid := Live(proc)]) && Holdings(slots[pid := Live(proc)], m')
    ensures LivePids(slots[pid := Live(proc)]) == LivePids(slots) + {pid}
    ensures pid != 0 && |LivePids(slots[pid := Live(proc)])| == |LivePids(slots)| + 1
  {
    var slots' := slots[pid := Live(proc)];
    assert LivePids(slots') == LivePids(slots) + {pid};
    forall p | p in LivePids(slots')
      ensures ProcOk(slots', m', p)
    {
      assert p != pid ==> ProcOk(slots, m, p);
    }
    forall p, q | p in LivePids(slots') && q in LivePids(slots') && p != q
      ensures Apart(slots', p, q)
    {
      assert p != pid ==> ProcOk(slots, m, p);
      assert q != pid ==> ProcOk(slots, m, q);
      assert p != pid && q != pid ==> Apart(slots, p, q);
    }
  }

  /** `w'` is `w` with a new process in the empty slot `pid`. */
  ghost predicate Born(w: World, w': World, pid: nat) {
    && 1 <= pid < |w.slots| && w.slots[pid].Empty? && pid in LivePids(w'.slots)
    && w'.slots == w.slots[pid := w'.slots[pid]]
    && LivePids(w'.slots) == LivePids(w.slots) + {pid}
    && w'.active == w.active + 1 && w'.cpid == w.cpid && w'.lapid == pid && w'.enabled == w.enabled
    && Takes(Runs(w.table), Runs(w'.table), pid, w'.slots[pid].proc)
  }

  lemma ForkKeepsOk(w: World, b: Birth)
    requires WorldOk(w) && CanFork(w)
    ensures WorldOk(ForkW(w, b).0)
    ensures Born(w, ForkW(w, b).0, ForkW(w, b).1)
  {
    var (w', pid) := ForkW(w, b);
    ForkRuns(w, b);
    NewProcKeeps(w.slots, Runs(w.table), Runs(w'.table), pid, w'.slots[pid].proc);
  }

  /** Every run of `pid` that starts at page 256 or above. */
  ghost function OwnedRuns(m: map<nat, Run>, pid: nat): set<nat> {
    set s | s in m && FIRST_PAGE <= s && m[s].owner == pid
  }

  /** Where the runs of a process start: its list entry, its body, and every run its pid owns. */
  ghost function Starts(m: map<nat, Run>, pid: nat, proc: Proc): set<nat> {
    OwnedRuns(m, pid) + {proc.entry, proc.body}
  }

  /** A count of 2^32 - 1 never runs out: the call frees every run of `pid`. */
  lemma UnboundedDoom(t: seq<Page>, pid: nat)
    requires |t| <= MAX_PAGES
    ensures Doomed(Runs(t), pid, WORD - 1) == OwnedRuns(Runs(t), pid)
  {
    forall s | s in OwnedRuns(Runs(t), pid)
      ensures s in Doomed(Runs(t), pid, WORD - 1)
    {
      OwnedAtMost(t, pid, s);
    }
  }

  /** Exit gives back exactly the process page, the list-entry page and every run its pid owns. */
  lemma ExitRuns(w: World, pid: nat)
    requires WorldOk(w) && CanExit(w, pid)
    ensures WellLinked(ExitW(w, pid).table)
    ensures Runs(ExitW(w, pid).table) == Runs(w.table) - Starts(Runs(w.table), pid, w.slots[pid].proc)
  {
    var proc := w.slots[pid].proc;
    assert ProcOk(w.slots, Runs(w.table), pid);
    UnboundedDoom(w.table, pid);
    var t1 := Erase(w.table, Doomed(Runs(w.table), pid, proc.allocatedPages));
    EraseRemovesRuns(w.table, Doomed(Runs(w.table), pid, proc.allocatedPages));
    EraseRemovesRuns(t1, {proc.body});
    EraseRemovesRuns(Erase(t1, {proc.body}), {proc.entry});
  }

  /** Dropping a process with its pages and its runs leaves the holdings of the others. */
  lemma DropProcKeeps(slots: seq<Slot>, m: map<nat, Run>, pid: nat)
    requires SlotsOk(slots) && Holdings(slots, m) && pid in LivePids(slots)
    ensures SlotsOk(slots[pid := Empty]) && Holdings(slots[pid := Empty], m - Starts(m, pid, slots[pid].proc))
    ensures LivePids(slots[pid := Empty]) == LivePids(slots) - {pid}
    ensures |LivePids(slots[pid := Empty])| == |LivePids(slots)| - 1
  {
    var slots', proc := slots[pid := Empty], slots[pid].proc;
    assert LivePids(slots') == LivePids(slots) - {pid};
    forall p | p in LivePids(slots')
      ensures ProcOk(slots', m - Starts(m, pid, proc), p)
    {
      assert ProcOk(slots, m, p) && Apart(slots, p, pid);
    }
    forall p, q | p in LivePids(slots') && q in LivePids(slots') && p != q
      ensures Apart(slots', p, q)
    {
      assert Apart(slots, p, q);
    }
  }

  /** `w'` is `w` without the process, the runs its pid owns, and its two pages. */
  ghost predicate Gone(w: World, w': World, pid: nat) {
    && pid in LivePids(w.slots)
    && w'.slots == w.slots[pid := Empty]
    && LivePids(w'.slots) == LivePids(w.slots) - {pid}
    && w'.active == w.active - 1 && w'.cpid == w.cpid && w'.lapid == w.lapid && w'.enabled == w.enabled
    && Runs(w'.table) == Runs(w.table) - Starts(Runs(w.table), pid, w.slots[pid].proc)
  }

  lemma ExitKeepsOk(w: World, pid: nat)
    requires WorldOk(w) && CanExit(w, pid)
    ensures WorldOk(ExitW(w, pid))
    ensures Gone(w, ExitW(w, pid), pid)
  {
    ExitRuns(w, pid);
    DropProcKeeps(w.slots, Runs(w.table), pid);
  }

  lemma MemoryKeepsHeld(t: seq<Page>, op: Op, page: nat)
    requires WellLinked(t) && Enabled(t, op) && Held(Runs(t), page)
    requires op.Free? ==> RunStart(t, op.addr / PAGE_BYTES) != page
    ensures WellLinked(Step(t, op).0) && Held(Runs(Step(t, op).0), page)
  {
    StepRefines(t, op);
    match op
    case Alloc(n, pid) =>
      var r := FirstFit(t, n, FIRST_PAGE);
      if r.Some? && 1 <= n {
        AllocateAddsRun(t, r.value, n, pid % 256);
      }
    case Free(addr) =>
      EraseRemovesRuns(t, {RunStart(t, addr / PAGE_BYTES)});
    case FreePid(pid, k) =>
      EraseRemovesRuns(t, Doomed(Runs(t), pid, k));
  }

  lemma StepKeepsOk(w: World, e: Event)
    requires WorldOk(w) && Can(w, e)
    ensures WorldOk(StepW(w, e))
  {
    match e
    case Tick(regs) => TickKeepsOk(w, regs);
    case Fork(birth) => ForkKeepsOk(w, birth);
    case Exit(pid) => ExitKeepsOk(w, pid);
    case Memory(op) =>
      StepRefines(w.table, op);
      forall p | p in LivePids(w.slots)
        ensures var proc, m := w.slots[p].proc, Runs(Step(w.table, op).0); Held(m, proc.entry) && Held(m, proc.body)
      {
        assert ProcOk(w.slots, Runs(w.table), p);
        MemoryKeepsHeld(w.table, op, w.slots[p].proc.entry);
        MemoryKeepsHeld(w.table, op, w.slots[p].proc.body);
      }
      RunsChangeKeeps(w.slots, Runs(w.table), Runs(Step(w.table, op).0));
  }
}
