/** The page table of kernel/memory/mmanager.c as a sequence of entries, and the map of runs it encodes.

    A multi-page allocation is stored nowhere: it exists only as link bits between neighbouring
    entries.  This module says which tables are well linked, which map of runs such a table
    encodes, and proves that the encoding is exact. */
module Pages {
  import opened Basics

  const PAGE_BYTES := 4096
  const FIRST_PAGE := 256         // 0x100000 / 4096: the lowest page the allocator hands out
  const MAX_PAGES := 0x10_0000    // a 32-bit address space holds 2^20 pages

  /** Pages of 4 KiB; allocation starts at 1 MiB; the address space is that of 32 bits. */
  lemma Geometry()
    ensures PAGE_BYTES == 4096 && FIRST_PAGE * 4096 == 0x10_0000 && MAX_PAGES * 4096 == 0x1_0000_0000 == WORD
  {
  }

  /** One entry.  The permission bits are left out: the allocator never reads them. */
  datatype Page = Page(pid: Byte, used: bool, unusable: bool, linkNext: bool, linkLast: bool, reserved: bool) {
    predicate Clear() {
      !used && !unusable && !reserved
    }

    predicate Allocated() {
      used && !unusable && !reserved
    }
  }

  const CLEARED := Page(0, false, false, false, false, false)

  /** The abstract object: `pages` consecutive pages with one owner. */
  datatype Run = Run(pages: nat, owner: Byte)

  // ----- well-linked tables

  ghost predicate BackgroundAt(t: seq<Page>, i: nat)
    requires i < |t|
  {
    && (!t[i].used ==> t[i].pid == 0 && t[i].Clear())
    && (t[i].used && !t[i].Allocated() ==> t[i].pid == 0)
  }

  /** Unused pages belong to nobody; unusable and reserved pages count as used and belong to nobody. */
  ghost predicate Background(t: seq<Page>) {
    && |t| <= MAX_PAGES
    && forall i :: 0 <= i < |t| ==> BackgroundAt(t, i)
  }

  ghost predicate LinkedAt(t: seq<Page>, i: nat)
    requires i < |t|
  {
    t[i].Allocated() ==>
      && (t[i].linkNext ==>
            && FIRST_PAGE <= i && i + 1 < |t| && t[i + 1].Allocated()
            && t[i + 1].linkLast && t[i + 1].pid == t[i].pid)
      && (t[i].linkLast ==> 0 < i && t[i - 1].Allocated() && t[i - 1].linkNext)
  }

  /** The invariant of local bits that every allocator call keeps. */
  ghost predicate WellLinked(t: seq<Page>) {
    && Background(t)
    && forall i :: 0 <= i < |t| ==> LinkedAt(t, i)
  }

  // ----- the runs of a table

  predicate StartsRun(t: seq<Page>, s: nat)
    requires s < |t|
  {
    t[s].Allocated() && !t[s].linkLast
  }

  function RunLength(t: seq<Page>, i: nat): (n: nat)
    requires i < |t|
    ensures 1 <= n <= |t| - i
    decreases |t| - i
  {
    if t[i].linkNext && i + 1 < |t| then 1 + RunLength(t, i + 1) else 1
  }

  function RunStart(t: seq<Page>, i: nat): (s: nat)
    requires i < |t|
    ensures s <= i
  {
    if t[i].linkLast && 0 < i then RunStart(t, i - 1) else i
  }

  const NO_RUN := Run(0, 0)

  /** The run that starts at page `s`, or `NO_RUN`. */
  function RunAt(t: seq<Page>, s: nat): Run {
    if s < |t| && StartsRun(t, s) then Run(RunLength(t, s), t[s].pid) else NO_RUN
  }

  ghost function Runs(t: seq<Page>): map<nat, Run> {
    map s: nat | s < |t| && StartsRun(t, s) :: RunAt(t, s)
  }

  /** Page `k` carries the bits of its place in a run of `n` pages from `s` owned by `pid`. */
  predicate InRun(t: seq<Page>, s: nat, n: nat, pid: Byte, k: nat)
    requires k < |t|
  {
    && t[k].Allocated()
    && t[k].pid == pid
    && (t[k].linkNext <==> k + 1 < s + n)
    && (t[k].linkLast <==> s < k)
  }

  lemma {:induction false} RunFrom(t: seq<Page>, i: nat, k: nat)
    requires WellLinked(t) && i < |t| && t[i].Allocated()
    requires i <= k < i + RunLength(t, i)
    ensures t[k].Allocated() && t[k].pid == t[i].pid
    ensures t[k].linkNext <==> k + 1 < i + RunLength(t, i)
    ensures i < k ==> t[k].linkLast
    ensures RunStart(t, k) == RunStart(t, i)
    decreases k
  {
    assert LinkedAt(t, i);
    if i < k {
      RunFrom(t, i, k - 1);
      assert LinkedAt(t, k - 1);
      LengthStep(t, i, k);
    } else {
      assert RunLength(t, i) == 1 <==> !t[i].linkNext;
    }
  }

  lemma {:induction false} LengthStep(t: seq<Page>, i: nat, k: nat)
    requires WellLinked(t) && i < |t| && t[i].Allocated()
    requires i <= k < i + RunLength(t, i)
    ensures k + RunLength(t, k) == i + RunLength(t, i)
    ensures t[k].Allocated()
    ensures t[k].linkNext <==> k + 1 < i + RunLength(t, i)
    decreases k - i
  {
    assert LinkedAt(t, i);
    if i < k {
      LengthStep(t, i + 1, k);
    }
  }

  /** The pages of a run carry exactly the bits of their place in it. */
  lemma RunPages(t: seq<Page>, s: nat)
    requires WellLinked(t) && s < |t| && StartsRun(t, s)
    ensures forall k :: s <= k < s + RunLength(t, s) ==>
      InRun(t, s, RunLength(t, s), t[s].pid, k) && RunStart(t, k) == s
  {
    forall k | s <= k < s + RunLength(t, s)
      ensures InRun(t, s, RunLength(t, s), t[s].pid, k) && RunStart(t, k) == s
    {
      RunFrom(t, s, k);
    }
  }

  /** Every allocated page lies in the run that the backward walk finds. */
  lemma {:induction false} RunAround(t: seq<Page>, i: nat)
    requires WellLinked(t) && i < |t| && t[i].Allocated()
    ensures var s := RunStart(t, i); StartsRun(t, s) && s <= i < s + RunLength(t, s) && t[s].pid == t[i].pid
  {
    assert LinkedAt(t, i);
    if t[i].linkLast {
      RunAround(t, i - 1);
      RunFrom(t, RunStart(t, i - 1), i - 1);
      assert LinkedAt(t, i - 1);
    }
  }

  /** A run that holds a page above the first allocatable one starts there too. */
  lemma RunStartsHigh(t: seq<Page>, i: nat)
    requires WellLinked(t) && FIRST_PAGE <= i < |t| && t[i].Allocated()
    ensures FIRST_PAGE <= RunStart(t, i)
  {
    RunAround(t, i);
    var s := RunStart(t, i);
    if s < i {
      RunFrom(t, s, s);
      assert LinkedAt(t, s);
    }
  }

  // ----- the encoding is exact

  /** The bits of `t` are those of the runs in `m`, and no page outside them is allocated. */
  ghost predicate Encodes(t: seq<Page>, m: map<nat, Run>) {
    && (forall s :: s in m ==> 1 <= m[s].pages && s + m[s].pages <= |t|)
    && (forall s :: s in m && 1 < m[s].pages ==> FIRST_PAGE <= s)
    && (forall s, k :: s in m && s <= k < s + m[s].pages ==> InRun(t, s, m[s].pages, m[s].owner, k))
    && (forall k :: 0 <= k < |t| && t[k].Allocated() ==> exists s :: s in m && s <= k < s + m[s].pages)
  }

  lemma RunsEncode(t: seq<Page>)
    requires WellLinked(t)
    ensures Encodes(t, Runs(t))
  {
    var m := Runs(t);
    forall s | s in m && 1 < m[s].pages
      ensures FIRST_PAGE <= s
    {
      RunFrom(t, s, s);
      assert LinkedAt(t, s);
    }
    forall s, k | s in m && s <= k < s + m[s].pages
      ensures InRun(t, s, m[s].pages, m[s].owner, k)
    {
      RunPages(t, s);
    }
    forall k: nat | k < |t| && t[k].Allocated()
      ensures exists s :: s in m && s <= k < s + m[s].pages
    {
      RunAround(t, k);
      assert RunStart(t, k) in m;
    }
  }

  lemma {:induction false} EncodedLength(t: seq<Page>, m: map<nat, Run>, s: nat, k: nat)
    requires Encodes(t, m) && s in m && s <= k < s + m[s].pages
    ensures RunLength(t, k) == s + m[s].pages - k
    decreases s + m[s].pages - k
  {
    assert InRun(t, s, m[s].pages, m[s].owner, k);
    if k + 1 < s + m[s].pages {
      EncodedLength(t, m, s, k + 1);
    }
  }

  lemma EncodedLinks(t: seq<Page>, m: map<nat, Run>, i: nat)
    requires Encodes(t, m) && i < |t|
    ensures LinkedAt(t, i)
  {
    if t[i].Allocated() {
      var s :| s in m && s <= i < s + m[s].pages;
      assert InRun(t, s, m[s].pages, m[s].owner, i);
      if t[i].linkNext {
        assert InRun(t, s, m[s].pages, m[s].owner, i + 1);
      }
      if t[i].linkLast {
        assert InRun(t, s, m[s].pages, m[s].owner, i - 1);
      }
    }
  }

  lemma EncodedRun(t: seq<Page>, m: map<nat, Run>, s: nat)
    requires Encodes(t, m)
    ensures s in m <==> s < |t| && StartsRun(t, s)
    ensures s in m ==> m[s] == Run(RunLength(t, s), t[s].pid)
  {
    if s in m {
      assert InRun(t, s, m[s].pages, m[s].owner, s);
      EncodedLength(t, m, s, s);
    }
    if s < |t| && StartsRun(t, s) {
      var q :| q in m && q <= s < q + m[q].pages;
      assert InRun(t, q, m[q].pages, m[q].owner, s);
    }
  }

  /** Exactness: the well-linked tables are those that encode some map of runs, and each encodes only one. */
  lemma EncodingIsExact(t: seq<Page>, m: map<nat, Run>)
    requires Background(t)
    ensures Encodes(t, m) <==> WellLinked(t) && m == Runs(t)
  {
    if WellLinked(t) && m == Runs(t) {
      RunsEncode(t);
    }
    if Encodes(t, m) {
      forall i: nat | i < |t|
        ensures LinkedAt(t, i)
      {
        EncodedLinks(t, m, i);
      }
      forall s: nat
        ensures s in m <==> s in Runs(t)
        ensures s in m ==> m[s] == Runs(t)[s]
      {
        EncodedRun(t, m, s);
      }
      assert m == Runs(t);
    }
  }

  /** Two different runs share no page. */
  lemma RunsAreDisjoint(t: seq<Page>, a: nat, b: nat)
    requires WellLinked(t) && a in Runs(t) && b in Runs(t) && a < b
    ensures a + Runs(t)[a].pages <= b
  {
    RunPages(t, a);
    assert b < a + RunLength(t, a) ==> InRun(t, a, RunLength(t, a), t[a].pid, b);
  }

  // ----- counting pages

  ghost function AllocatedPages(t: seq<Page>): set<nat> {
    set i: nat | i < |t| && t[i].Allocated()
  }

  ghost function Interval(lo: nat, n: nat): (r: set<nat>)
    ensures forall i: nat :: i in r <==> lo <= i < lo + n
    ensures |r| == n
  {
    if n == 0 then {} else Interval(lo, n - 1) + {lo + n - 1}
  }
}
