/** The allocator calls of kernel/memory/mmanager.c over a page table that they update in place,
    and the abstract heap (a map of runs) that every sequence of those calls refines. */
module Allocator {
  import opened Basics
  import opened Pages

  // ----- what the calls do to a table

  /** `n` consecutive pages from `p` are clear and inside the table. */
  predicate Fits(t: seq<Page>, p: nat, n: int) {
    && p < |t| && t[p].Clear()
    && p + n <= |t|
    && forall k :: p <= k < p + n ==> t[k].Clear()
  }

  /** The lowest fitting start at or above `from`. */
  function FirstFit(t: seq<Page>, n: int, from: nat): (r: Option<nat>)
    ensures r.None? ==> forall p :: from <= p < |t| ==> !Fits(t, p, n)
    ensures r.Some? ==> from <= r.value && Fits(t, r.value, n)
    ensures r.Some? ==> forall p :: from <= p < r.value ==> !Fits(t, p, n)
    decreases |t| - from
  {
    if from >= |t| then None
    else if Fits(t, from, n) then Some(from)
    else FirstFit(t, n, from + 1)
  }

  /** Page `p + j` of a run of `n` pages, as the allocator writes it. */
  function RunPage(n: int, j: int, pid: Byte): Page {
    Page(pid, true, false, j < n - 1, 0 < j, false)
  }

  function Allocate(t: seq<Page>, p: nat, n: int, pid: Byte): (r: seq<Page>)
    ensures |r| == |t|
    ensures forall i :: 0 <= i < |t| ==> r[i] == if p <= i < p + n then RunPage(n, i - p, pid) else t[i]
  {
    seq(|t|, i requires 0 <= i < |t| => if p <= i < p + n then RunPage(n, i - p, pid) else t[i])
  }

  /** The table with every page of the runs that start in `doomed` cleared. */
  ghost function Erase(t: seq<Page>, doomed: set<nat>): (r: seq<Page>)
    ensures |r| == |t|
  {
    seq(|t|, i requires 0 <= i < |t| => if t[i].Allocated() && RunStart(t, i) in doomed then CLEARED else t[i])
  }

  /** The starts, from page 256 up to but not including `hi`, of the runs that `pid` owns. */
  ghost function OwnedBelow(m: map<nat, Run>, pid: nat, hi: nat): set<nat> {
    set s | s in m && FIRST_PAGE <= s < hi && m[s].owner == pid
  }

  /** How many runs a call with count `k` may free.  The count is decremented as a 32-bit word before
      it is tested, so zero stops the scan at once unless the first page scanned is owned. */
  ghost function Budget(m: map<nat, Run>, pid: nat, k: nat): nat {
    if 0 < k then k
    else if FIRST_PAGE in m && m[FIRST_PAGE].owner == pid then WORD
    else 0
  }

  /** The first `Budget` runs of `pid` in address order. */
  ghost function Doomed(m: map<nat, Run>, pid: nat, k: nat): set<nat> {
    set s | s in m && FIRST_PAGE <= s && m[s].owner == pid && |OwnedBelow(m, pid, s)| < Budget(m, pid, k)
  }

  /** No more runs than pages. */
  lemma OwnedAtMost(t: seq<Page>, pid: nat, hi: nat)
    requires |t| <= MAX_PAGES
    ensures |OwnedBelow(Runs(t), pid, hi)| <= MAX_PAGES
  {
    var all := Interval(0, |t|);
    assert OwnedBelow(Runs(t), pid, hi) <= all;
    SubsetSize(OwnedBelow(Runs(t), pid, hi), all);
  }

  lemma SubsetSize<T>(a: set<T>, b: set<T>)
    requires a <= b
    ensures |a| <= |b|
    ensures a < b ==> |a| < |b|
  {
    assert b == a + (b - a) && a !! b - a;
    assert |b| == |a| + |b - a|;
    if a < b {
      var x :| x in b && x !in a;
      assert x in b - a;
    }
  }

  /** How many runs of `pid` start at or above page 256. */
  ghost function OwnedFrom(m: map<nat, Run>, pid: nat): set<nat> {
    set s | s in m && 256 <= s && m[s].owner == pid
  }

  ghost function Below(a: set<nat>, hi: nat): set<nat> {
    set x | x in a && x < hi
  }

  /** The elements with fewer than `k` smaller ones. */
  ghost function LowestSet(a: set<nat>, k: nat): set<nat> {
    set s | s in a && |Below(a, s)| < k
  }

  lemma MaxOf(a: set<nat>) returns (top: nat)
    requires a != {}
    ensures top in a && forall x :: x in a ==> x <= top
    decreases |a|
  {
    var any :| any in a;
    top := any;
    if a != {any} {
      assert a == (a - {any}) + {any} && a - {any} != {};
      var other := MaxOf(a - {any});
      if any < other {
        top := other;
      }
    }
  }

  lemma {:induction false} LowestOf(a: set<nat>, k: nat)
    ensures |LowestSet(a, k)| == Least(k, |a|)
    decreases |a|
  {
    if a == {} {
      assert LowestSet(a, k) == {};
    } else {
      var top := MaxOf(a);
      var rest := a - {top};
      LowestOf(rest, k);
      forall s | s in rest
        ensures Below(a, s) == Below(rest, s)
      {
      }
      assert Below(a, top) == rest;
      assert LowestSet(a, k) == LowestSet(rest, k) + if |rest| < k then {top} else {};
    }
  }

  /** A call with count `k` frees the lesser of `k` and all the owned runs, the lowest ones. */
  lemma DoomedExact(m: map<nat, Run>, pid: nat, k: nat)
    requires 1 <= k
    ensures Doomed(m, pid, k) <= OwnedFrom(m, pid)
    ensures |Doomed(m, pid, k)| == Least(k, |OwnedFrom(m, pid)|)
    ensures forall s, d :: s in OwnedFrom(m, pid) && s !in Doomed(m, pid, k) && d in Doomed(m, pid, k) ==> d < s
  {
    var all := OwnedFrom(m, pid);
    assert forall s :: s in all ==> OwnedBelow(m, pid, s) == Below(all, s);
    LowestOf(all, k);
    assert Doomed(m, pid, k) == LowestSet(all, k);
    forall s, d | s in all && s !in Doomed(m, pid, k) && d in Doomed(m, pid, k)
      ensures d < s
    {
      if s <= d {
        SubsetSize(OwnedBelow(m, pid, s), OwnedBelow(m, pid, d));
      }
    }
  }

  /** With count 0 the scan stops at once, unless a run of `pid` starts at page 256; then it frees all. */
  lemma DoomedByZero(t: seq<Page>, pid: nat)
    requires |t| <= MAX_PAGES
    ensures Doomed(Runs(t), pid, 0) ==
      if 256 in Runs(t) && Runs(t)[256].owner == pid then OwnedFrom(Runs(t), pid) else {}
  {
    forall s | s in OwnedFrom(Runs(t), pid)
      ensures |OwnedBelow(Runs(t), pid, s)| < WORD
    {
      OwnedAtMost(t, pid, s);
    }
  }

  // ----- what that means for the runs

  lemma AllocateKeepsBackground(t: seq<Page>, p: nat, n: int, pid: Byte)
    requires Background(t)
    ensures Background(Allocate(t, p, n, pid))
  {
    var t' := Allocate(t, p, n, pid);
    forall i: nat | i < |t'|
      ensures BackgroundAt(t', i)
    {
      assert BackgroundAt(t, i);
    }
  }

  lemma AllocateKeepsBlocked(t: seq<Page>, p: nat, n: int, pid: Byte)
    requires Fits(t, p, n)
    ensures Blocked(Allocate(t, p, n, pid)) == Blocked(t)
  {
  }

  lemma AllocateEncodes(t: seq<Page>, p: nat, n: int, pid: Byte, m: map<nat, Run>)
    requires Encodes(t, m) && FIRST_PAGE <= p && 1 <= n && Fits(t, p, n)
    ensures p !in m
    ensures Encodes(Allocate(t, p, n, pid), m[p := Run(n, pid)])
  {
    var t', m' := Allocate(t, p, n, pid), m[p := Run(n, pid)];
    assert p in m ==> InRun(t, p, m[p].pages, m[p].owner, p);
    forall s, k | s in m' && s <= k < s + m'[s].pages
      ensures InRun(t', s, m'[s].pages, m'[s].owner, k)
    {
      if s != p {
        assert InRun(t, s, m[s].pages, m[s].owner, k);
      }
    }
    forall k: nat | k < |t'| && t'[k].Allocated()
      ensures exists s :: s in m' && s <= k < s + m'[s].pages
    {
      if p <= k < p + n {
        assert p in m';
      } else {
        assert t[k].Allocated();
        var s :| s in m && s <= k < s + m[s].pages;
        assert s in m';
      }
    }
  }

  /** Writing a fitting run adds exactly that run. */
  lemma AllocateAddsRun(t: seq<Page>, p: nat, n: int, pid: Byte)
    requires WellLinked(t) && FIRST_PAGE <= p && 1 <= n && Fits(t, p, n)
    ensures WellLinked(Allocate(t, p, n, pid))
    ensures p !in Runs(t)
    ensures Runs(Allocate(t, p, n, pid)) == Runs(t)[p := Run(n, pid)]
    ensures Blocked(Allocate(t, p, n, pid)) == Blocked(t)
  {
    RunsEncode(t);
    AllocateKeepsBackground(t, p, n, pid);
    AllocateKeepsBlocked(t, p, n, pid);
    AllocateEncodes(t, p, n, pid, Runs(t));
    EncodingIsExact(Allocate(t, p, n, pid), Runs(t)[p := Run(n, pid)]);
  }

  lemma EraseKeepsBackground(t: seq<Page>, doomed: set<nat>)
    requires Background(t)
    ensures Background(Erase(t, doomed))
  {
    var t' := Erase(t, doomed);
    forall i: nat | i < |t'|
      ensures BackgroundAt(t', i)
    {
      assert BackgroundAt(t, i);
    }
  }

  lemma EraseEncodes(t: seq<Page>, doomed: set<nat>)
    requires WellLinked(t)
    ensures Encodes(Erase(t, doomed), Runs(t) - doomed)
  {
    var t', m := Erase(t, doomed), Runs(t) - doomed;
    assert Encodes(t, Runs(t)) by { RunsEncode(t); }
    forall s, k | s in m && s <= k < s + m[s].pages
      ensures InRun(t', s, m[s].pages, m[s].owner, k)
    {
      assert InRun(t, s, m[s].pages, m[s].owner, k);
      RunFrom(t, s, k);
    }
    forall k: nat | k < |t'| && t'[k].Allocated()
      ensures exists s :: s in m && s <= k < s + m[s].pages
    {
      RunAround(t, k);
      assert RunStart(t, k) in m;
    }
  }

  /** Erasing runs removes exactly those runs. */
  lemma EraseRemovesRuns(t: seq<Page>, doomed: set<nat>)
    requires WellLinked(t)
    ensures WellLinked(Erase(t, doomed))
    ensures Runs(Erase(t, doomed)) == Runs(t) - doomed
    ensures Blocked(Erase(t, doomed)) == Blocked(t)
  {
    EraseKeepsBackground(t, doomed);
    EraseEncodes(t, doomed);
    EncodingIsExact(Erase(t, doomed), Runs(t) - doomed);
  }

  /** Erasing writes a zero entry over every page of those runs, and leaves every other entry. */
  lemma EraseExact(t: seq<Page>, doomed: set<nat>, k: nat)
    requires WellLinked(t) && k < |t|
    ensures Erase(t, doomed)[k] ==
      if exists s :: s in doomed && s in Runs(t) && s <= k < s + Runs(t)[s].pages
      then Page(0, false, false, false, false, false) else t[k]
  {
    if t[k].Allocated() {
      RunAround(t, k);
      assert RunStart(t, k) in Runs(t);
    }
    forall s | s in Runs(t) && s <= k < s + Runs(t)[s].pages
      ensures t[k].Allocated() && RunStart(t, k) == s
    {
      RunFrom(t, s, k);
    }
  }

  /** A page that survives erasing keeps the start of its run. */
  lemma {:induction false} EraseKeepsStart(t: seq<Page>, doomed: set<nat>, i: nat)
    requires WellLinked(t) && i < |t| && t[i].Allocated() && RunStart(t, i) !in doomed
    ensures RunStart(Erase(t, doomed), i) == RunStart(t, i)
  {
    assert LinkedAt(t, i);
    if t[i].linkLast {
      EraseKeepsStart(t, doomed, i - 1);
    }
  }

  lemma EraseTwice(t: seq<Page>, a: set<nat>, b: set<nat>)
    requires WellLinked(t)
    ensures Erase(Erase(t, a), b) == Erase(t, a + b)
  {
    forall i: nat | i < |t|
      ensures Erase(Erase(t, a), b)[i] == Erase(t, a + b)[i]
    {
      if t[i].Allocated() && RunStart(t, i) !in a {
        EraseKeepsStart(t, a, i);
      }
    }
  }

  // ----- the abstract heap

  ghost function Blocked(t: seq<Page>): set<nat> {
    set i: nat | i < |t| && t[i].used && !t[i].Allocated()
  }

  datatype Heap = Heap(size: nat, blocked: set<nat>, runs: map<nat, Run>)

  ghost function HeapOf(t: seq<Page>): Heap {
    Heap(|t|, Blocked(t), Runs(t))
  }

  ghost predicate Taken(h: Heap, k: nat) {
    k in h.blocked || exists s :: s in h.runs && s <= k < s + h.runs[s].pages
  }

  ghost predicate Gap(h: Heap, p: nat, n: int) {
    && p < h.size && !Taken(h, p)
    && p + n <= h.size
    && forall k: nat :: p <= k < p + n ==> !Taken(h, k)
  }

  lemma ClearMeansNotTaken(t: seq<Page>, k: nat)
    requires WellLinked(t) && k < |t|
    ensures t[k].Clear() <==> !Taken(HeapOf(t), k)
  {
    RunsEncode(t);
    assert BackgroundAt(t, k);
    if exists s :: s in Runs(t) && s <= k < s + Runs(t)[s].pages {
      var s :| s in Runs(t) && s <= k < s + Runs(t)[s].pages;
      assert InRun(t, s, Runs(t)[s].pages, Runs(t)[s].owner, k);
    }
  }

  lemma FitsMeansGap(t: seq<Page>, p: nat, n: int)
    requires WellLinked(t)
    ensures Fits(t, p, n) <==> Gap(HeapOf(t), p, n)
  {
    forall k: nat | k < |t|
      ensures t[k].Clear() <==> !Taken(HeapOf(t), k)
    {
      ClearMeansNotTaken(t, k);
    }
  }

  // ----- runs of calls

  datatype Op =
    | Alloc(n: int, pid: nat)
    | Free(addr: nat)
    | FreePid(pid: nat, k: nat)

  /** What the source demands of its callers: `kfree` is given an address inside an allocated run. */
  predicate Enabled(t: seq<Page>, op: Op) {
    match op
    case Alloc(n, pid) => true
    case Free(addr) => addr / PAGE_BYTES < |t| && t[addr / PAGE_BYTES].Allocated()
    case FreePid(pid, k) => pid != 0
  }

  /** One call on a table: the new table and the page number it returns, if any. */
  ghost function Step(t: seq<Page>, op: Op): (seq<Page>, Option<nat>)
    requires Enabled(t, op)
  {
    match op
    case Alloc(n, pid) =>
      var r := FirstFit(t, n, FIRST_PAGE);
      (if r.Some? then Allocate(t, r.value, n, pid % 256) else t, r)
    case Free(addr) => (Erase(t, {RunStart(t, addr / PAGE_BYTES)}), None)
    case FreePid(pid, k) => (Erase(t, Doomed(Runs(t), pid, k)), None)
  }

  /** One call on the abstract heap: allocation takes the lowest gap at or above page 256,
      freeing removes the run around the address, or the first runs of an owner. */
  ghost predicate HeapStep(h: Heap, op: Op, h': Heap, r: Option<nat>) {
    && h'.size == h.size && h'.blocked == h.blocked
    && match op
       case Alloc(n, pid) =>
         (match r
          case None => h' == h && forall p: nat :: FIRST_PAGE <= p ==> !Gap(h, p, n)
          case Some(p) =>
            && FIRST_PAGE <= p && Gap(h, p, n)
            && (forall q: nat :: FIRST_PAGE <= q < p ==> !Gap(h, q, n))
            && h'.runs == if 1 <= n then h.runs[p := Run(n, pid % 256)] else h.runs)
       case Free(addr) =>
         r == None && exists s :: s in h.runs && s <= addr / PAGE_BYTES < s + h.runs[s].pages && h'.runs == h.runs - {s}
       case FreePid(pid, k) =>
         r == None && h'.runs == h.runs - Doomed(h.runs, pid, k)
  }

  /** Refinement, one call: every call keeps the table well linked and acts on its runs as the
      abstract heap does. */
  lemma StepRefines(t: seq<Page>, op: Op)
    requires WellLinked(t) && Enabled(t, op)
    ensures WellLinked(Step(t, op).0)
    ensures HeapStep(HeapOf(t), op, HeapOf(Step(t, op).0), Step(t, op).1)
  {
    match op
    case Alloc(n, pid) =>
      forall p: nat
        ensures Fits(t, p, n) <==> Gap(HeapOf(t), p, n)
      {
        FitsMeansGap(t, p, n);
      }
      var r := FirstFit(t, n, FIRST_PAGE);
      if r.Some? {
        if 1 <= n {
          AllocateAddsRun(t, r.value, n, pid % 256);
        } else {
          assert Allocate(t, r.value, n, pid % 256) == t;
        }
      }
    case Free(addr) =>
      RunAround(t, addr / PAGE_BYTES);
      var s := RunStart(t, addr / PAGE_BYTES);
      EraseRemovesRuns(t, {s});
      assert s in Runs(t) && s <= addr / PAGE_BYTES < s + Runs(t)[s].pages;
    case FreePid(pid, k) =>
      EraseRemovesRuns(t, Doomed(Runs(t), pid, k));
  }

  ghost predicate EnabledAll(t: seq<Page>, ops: seq<Op>)
    decreases |ops|
  {
    ops == [] || (Enabled(t, ops[0]) && EnabledAll(Step(t, ops[0]).0, ops[1..]))
  }

  ghost function StepAll(t: seq<Page>, ops: seq<Op>): seq<Page>
    requires EnabledAll(t, ops)
    decreases |ops|
  {
    if ops == [] then t else StepAll(Step(t, ops[0]).0, ops[1..])
  }

  ghost predicate HeapRun(h: Heap, ops: seq<Op>, h': Heap)
    decreases |ops|
  {
    if ops == [] then h' == h
    else exists mid: Heap, r: Option<nat> :: HeapStep(h, ops[0], mid, r) && HeapRun(mid, ops[1..], h')
  }

  /** Refinement, every run: from a well-linked table any sequence of calls is a run of the abstract heap. */
  lemma {:induction false} RunRefines(t: seq<Page>, ops: seq<Op>)
    requires WellLinked(t) && EnabledAll(t, ops)
    ensures WellLinked(StepAll(t, ops))
    ensures HeapRun(HeapOf(t), ops, HeapOf(StepAll(t, ops)))
    decreases |ops|
  {
    if ops != [] {
      var (t', r) := Step(t, ops[0]);
      StepRefines(t, ops[0]);
      RunRefines(t', ops[1..]);
      assert HeapStep(HeapOf(t), ops[0], HeapOf(t'), r);
    }
  }

  // ----- how many pages are in use

  /** Allocating raises the number of allocated pages by the size of the request. */
  lemma AllocateCounts(t: seq<Page>, p: nat, n: int, pid: Byte)
    requires WellLinked(t) && FIRST_PAGE <= p && 1 <= n && Fits(t, p, n)
    ensures |AllocatedPages(Allocate(t, p, n, pid))| == |AllocatedPages(t)| + n
  {
    assert AllocatedPages(Allocate(t, p, n, pid)) == AllocatedPages(t) + Interval(p, n);
    assert AllocatedPages(t) !! Interval(p, n);
  }

  /** Freeing a run lowers the number of allocated pages by its length. */
  lemma EraseCounts(t: seq<Page>, s: nat)
    requires WellLinked(t) && s in Runs(t)
    ensures |AllocatedPages(Erase(t, {s}))| == |AllocatedPages(t)| - Runs(t)[s].pages
  {
    var n := Runs(t)[s].pages;
    RunPages(t, s);
    forall i: nat | i < |t| && t[i].Allocated() && RunStart(t, i) == s
      ensures s <= i < s + n
    {
      RunAround(t, i);
    }
    forall i | i in Interval(s, n)
      ensures i in AllocatedPages(t) && RunStart(t, i) == s
    {
      assert InRun(t, s, n, t[s].pid, i);
    }
    assert AllocatedPages(Erase(t, {s})) == AllocatedPages(t) - Interval(s, n);
    assert Interval(s, n) <= AllocatedPages(t);
  }

  // ----- the range test as the source writes it

  /** The pages that the source's loop looks at: from `start` up to `size`, not `start + size`. */
  predicate ClearFrom(t: seq<Page>, start: nat, size: int)
    requires size <= |t|
  {
    forall k :: start <= k < size ==> t[k].Clear()
  }

  /** The page the source's search stops at. */
  function AsWrittenStart(t: seq<Page>, n: int, from: nat): (r: Option<nat>)
    requires n <= |t|
    ensures r.None? ==> forall p :: from <= p < |t| ==> t[p].used || t[p].unusable || !ClearFrom(t, p, n)
    ensures r.Some? ==> from <= r.value < |t| && !t[r.value].used && !t[r.value].unusable && ClearFrom(t, r.value, n)
    ensures r.Some? ==> forall p :: from <= p < r.value ==> t[p].used || t[p].unusable || !ClearFrom(t, p, n)
    decreases |t| - from
  {
    if from >= |t| then None
    else if !t[from].used && !t[from].unusable && ClearFrom(t, from, n) then Some(from)
    else AsWrittenStart(t, n, from + 1)
  }

  /** Writing `n` pages from `p` does what an allocation should: it adds one run and keeps every other. */
  ghost predicate AddsOneRun(t: seq<Page>, p: nat, n: int, pid: Byte) {
    && p + n <= |t|
    && 0 <= n
    && Runs(Allocate(t, p, n, pid)) == Runs(t)[p := Run(n, pid)]
    && Blocked(Allocate(t, p, n, pid)) == Blocked(t)
  }

  lemma OverwrittenRun(t: seq<Page>, p: nat, n: int, pid: Byte, k: nat)
    requires WellLinked(t) && p <= k < p + n <= |t| && !t[p].used && t[k].Allocated()
    ensures RunStart(t, k) in Runs(t) && RunStart(t, k) != p
    ensures RunStart(t, k) !in Runs(Allocate(t, p, n, pid))
  {
    var s := RunStart(t, k);
    RunAround(t, k);
    RunPages(t, s);
    assert s <= p ==> InRun(t, s, RunLength(t, s), t[s].pid, p);
    assert Allocate(t, p, n, pid)[s] == RunPage(n, s - p, pid);
  }

  lemma OverlapLosesARun(t: seq<Page>, p: nat, n: int, pid: Byte)
    requires WellLinked(t) && p < |t| && !t[p].used && 1 <= n && AddsOneRun(t, p, n, pid)
    ensures Fits(t, p, n)
  {
    assert BackgroundAt(t, p);
    var t' := Allocate(t, p, n, pid);
    forall k: nat | p <= k < p + n
      ensures t[k].Clear()
    {
      assert BackgroundAt(t, k);
      assert t'[k].Allocated();
      assert k in Blocked(t) <==> k in Blocked(t');
      if t[k].Allocated() {
        OverwrittenRun(t, p, n, pid, k);
        assert false;
      }
    }
  }

  /** The page after the last taken page from page 256 up to page `n`, or page 256 if there is none. */
  function AfterTaken(t: seq<Page>, n: int): (p: nat)
    requires n <= |t|
    ensures FIRST_PAGE <= p && forall k :: p <= k < n ==> t[k].Clear()
    ensures FIRST_PAGE < p ==> p <= n && !t[p - 1].Clear()
  {
    if n <= FIRST_PAGE then FIRST_PAGE
    else if !t[n - 1].Clear() then n
    else AfterTaken(t, n - 1)
  }

  /** The search as written stops at the lowest clear page above the last taken page below page `n`. */
  lemma AsWrittenStop(t: seq<Page>, n: int)
    requires WellLinked(t) && n <= |t|
    ensures AsWrittenStart(t, n, FIRST_PAGE) == FirstFit(t, 1, AfterTaken(t, n))
  {
    var q := AfterTaken(t, n);
    forall p: nat | FIRST_PAGE <= p < |t|
      ensures !t[p].used && !t[p].unusable && ClearFrom(t, p, n) <==> q <= p && Fits(t, p, 1)
    {
      assert BackgroundAt(t, p);
      assert p < q ==> !t[q - 1].Clear();
    }
  }

  /** Up to 257 pages, that is the lowest clear page of all at or above page 256. */
  lemma SmallRequestStop(t: seq<Page>, n: int)
    requires n <= |t| && n <= FIRST_PAGE + 1
    ensures FirstFit(t, 1, AfterTaken(t, n)) == FirstFit(t, 1, FIRST_PAGE)
  {
  }

  /** What can be checked before a request: the lowest clear page above the last taken page below page `n`, if
      there is one, starts `n` clear pages. */
  predicate RoomAtStop(t: seq<Page>, n: int)
    requires n <= |t|
  {
    var stop := FirstFit(t, 1, AfterTaken(t, n));
    stop.Some? ==> Fits(t, stop.value, n)
  }

  /** Exactly when the search as written allocates rightly, and finds the first fit: when there is room where
      it stops.  When it finds nothing, nothing fits. */
  lemma AsWrittenExact(t: seq<Page>, n: int, pid: Byte)
    requires WellLinked(t) && 1 <= n <= |t|
    ensures var r := AsWrittenStart(t, n, FIRST_PAGE);
      && (r.None? ==> FirstFit(t, n, FIRST_PAGE) == None)
      && (r.Some? ==> (AddsOneRun(t, r.value, n, pid) <==> RoomAtStop(t, n)))
      && (r.Some? ==> (FirstFit(t, n, FIRST_PAGE) == r <==> RoomAtStop(t, n)))
  {
    AsWrittenStop(t, n);
    var r, f := AsWrittenStart(t, n, FIRST_PAGE), FirstFit(t, n, FIRST_PAGE);
    if f.Some? {
      assert ClearFrom(t, f.value, n);
    }
    if r.Some? {
      if Fits(t, r.value, n) {
        AllocateAddsRun(t, r.value, n, pid);
      }
      if AddsOneRun(t, r.value, n, pid) {
        OverlapLosesARun(t, r.value, n, pid);
      }
    }
  }

  /** With room where it stops, the search as written is first fit. */
  lemma AsWrittenFirstFit(t: seq<Page>, n: int)
    requires WellLinked(t) && n <= |t| && RoomAtStop(t, n)
    ensures AsWrittenStart(t, n, FIRST_PAGE) == FirstFit(t, n, FIRST_PAGE)
  {
    AsWrittenStop(t, n);
    var f := FirstFit(t, n, FIRST_PAGE);
    if f.Some? {
      assert ClearFrom(t, f.value, n);
    }
  }

  /** A request is no larger than the table, so that the source's test stays inside it. */
  predicate InTable(t: seq<Page>, op: Op) {
    op.Alloc? ==> op.n <= |t|
  }

  predicate Guarded(t: seq<Page>, op: Op) {
    InTable(t, op) && (op.Alloc? ==> RoomAtStop(t, op.n))
  }

  /** One call with the search as the source writes it. */
  ghost function StepAsWritten(t: seq<Page>, op: Op): seq<Page>
    requires Enabled(t, op) && InTable(t, op)
  {
    match op
    case Alloc(n, pid) =>
      var r := AsWrittenStart(t, n, FIRST_PAGE);
      if r.Some? then Allocate(t, r.value, n, pid % 256) else t
    case Free(addr) => Erase(t, {RunStart(t, addr / PAGE_BYTES)})
    case FreePid(pid, k) => Erase(t, Doomed(Runs(t), pid, k))
  }

  /** Exactly when a call as written leaves the table that the intended one leaves. */
  lemma StepAsWrittenExact(t: seq<Page>, op: Op)
    requires WellLinked(t) && Enabled(t, op) && InTable(t, op)
    ensures StepAsWritten(t, op) == Step(t, op).0 <==> Guarded(t, op)
  {
    if op.Alloc? {
      AsWrittenStop(t, op.n);
      var r, f := AsWrittenStart(t, op.n, FIRST_PAGE), FirstFit(t, op.n, FIRST_PAGE);
      if f.Some? {
        assert ClearFrom(t, f.value, op.n);
      }
      if r.Some? && !Fits(t, r.value, op.n) {
        assert StepAsWritten(t, op)[r.value].used && !Step(t, op).0[r.value].used;
      }
    }
  }

  ghost predicate GuardedAll(t: seq<Page>, ops: seq<Op>)
    decreases |ops|
  {
    ops == [] || (Enabled(t, ops[0]) && Guarded(t, ops[0]) && GuardedAll(StepAsWritten(t, ops[0]), ops[1..]))
  }

  ghost function StepAllAsWritten(t: seq<Page>, ops: seq<Op>): seq<Page>
    requires GuardedAll(t, ops)
    decreases |ops|
  {
    if ops == [] then t else StepAllAsWritten(StepAsWritten(t, ops[0]), ops[1..])
  }

  /** The code as it is, every run: as long as each request is guarded, the calls with the search as written
      keep the table well linked and are a run of the abstract heap. */
  lemma {:induction false} GuardedRunRefines(t: seq<Page>, ops: seq<Op>)
    requires WellLinked(t) && GuardedAll(t, ops)
    ensures WellLinked(StepAllAsWritten(t, ops))
    ensures HeapRun(HeapOf(t), ops, HeapOf(StepAllAsWritten(t, ops)))
    decreases |ops|
  {
    if ops != [] {
      StepAsWrittenExact(t, ops[0]);
      StepRefines(t, ops[0]);
      GuardedRunRefines(StepAsWritten(t, ops[0]), ops[1..]);
      assert HeapStep(HeapOf(t), ops[0], HeapOf(Step(t, ops[0]).0), Step(t, ops[0]).1);
    }
  }

  /** For one page the search as written is always right. */
  lemma AsWrittenOnePage(t: seq<Page>)
    requires WellLinked(t) && 1 <= |t|
    ensures AsWrittenStart(t, 1, FIRST_PAGE) == FirstFit(t, 1, FIRST_PAGE) && RoomAtStop(t, 1)
  {
    AsWrittenStop(t, 1);
    SmallRequestStop(t, 1);
  }

  /** A table on which a two-page request as written destroys another owner's run: page 256 is free,
      page 257 is owned by process 7. */
  lemma AsWrittenDestroysARun()
    ensures var t := seq(258, i => if i == 257 then Page(7, true, false, false, false, false) else CLEARED);
      && WellLinked(t)
      && AsWrittenStart(t, 2, FIRST_PAGE) == Some(256)
      && !AddsOneRun(t, 256, 2, 0)
      && FirstFit(t, 2, FIRST_PAGE) == None
  {
    var t := seq(258, i => if i == 257 then Page(7, true, false, false, false, false) else CLEARED);
    assert forall i: nat :: i < |t| ==> BackgroundAt(t, i) && LinkedAt(t, i);
    assert ClearFrom(t, 256, 2);
    assert !t[257].Clear();
    assert !Fits(t, 256, 2) && !Fits(t, 257, 2);
    AsWrittenExact(t, 2, 0);
  }
}
