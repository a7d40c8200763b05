/** `init_memory` of kernel/memory/mmanager.c: the first page table, drawn from the memory map the
    firmware reports (region types as in section 15.1 of the ACPI Specification 6.4).

    The entries are written with positional initialisers that predate the `pid` field, so a taken
    page is a used page of process 1 and a free page carries `linked_to_last`. */
module Boot {
  import opened Pages

  const MIB := 0x10_0000
  const ENTRY_BYTES := 2
  const USABLE := 1
  const TAKEN := Page(1, true, false, false, false, false)
  const FREE := Page(0, false, false, false, true, false)

  /** A region of the map; only the low words are read. */
  datatype Region = Region(base: nat, length: nat, kind: nat) {
    function Limit(): nat {
      base + length
    }
  }

  ghost predicate RegionOk(m: seq<Region>, j: nat)
    requires j < |m|
  {
    && 0 < m[j].length && m[j].base % PAGE_BYTES == 0 && m[j].length % PAGE_BYTES == 0
    && m[j].Limit() < 0x8000_0000
    && (j + 1 < |m| ==> m[j].Limit() <= m[j + 1].base)
  }

  /** Page-aligned, nonempty regions in address order below 2^31. */
  ghost predicate GoodMap(m: seq<Region>) {
    && 0 < |m|
    && forall j :: 0 <= j < |m| ==> RegionOk(m, j)
  }

  /** The index of the first region that ends above `addr`, or `|m|`. */
  function RegionAt(m: seq<Region>, addr: nat): (j: nat)
    ensures j <= |m|
    ensures j < |m| ==> addr < m[j].Limit()
    ensures forall k :: 0 <= k < j ==> m[k].Limit() <= addr
  {
    if m == [] || addr < m[0].Limit() then 0 else 1 + RegionAt(m[1..], addr)
  }

  /** The page just after region 0 when a hole follows it. */
  predicate HoleEdge(m: seq<Region>, addr: nat) {
    1 < |m| && addr == m[0].Limit() && addr < m[1].base
  }

  /** The byte just above the page table, which starts at 1 MiB. */
  function TableEnd(size: nat): nat {
    MIB + size * ENTRY_BYTES
  }

  ghost predicate MarkedFree(m: seq<Region>, size: nat, i: nat) {
    var addr := i * PAGE_BYTES;
    && TableEnd(size) <= addr
    && RegionAt(m, addr) < |m| && m[RegionAt(m, addr)].kind == USABLE
    && !HoleEdge(m, addr)
  }

  ghost function BootTable(m: seq<Region>, size: nat): seq<Page> {
    seq(size, i requires 0 <= i < size => if MarkedFree(m, size, i) then FREE else TAKEN)
  }

  /** `check_sorted`: 0, or the first entry that starts below the end of the one before.
      The loop stops one entry short, so the last entry is never looked at. */
  method CheckSorted(m: seq<Region>) returns (r: nat)
    ensures r == 0 <==> forall j :: 1 <= j < |m| - 1 ==> m[j - 1].Limit() <= m[j].base
    ensures r != 0 ==> 1 <= r < |m| - 1 && m[r].base < m[r - 1].Limit()
    ensures forall j :: 1 <= j < r && j < |m| ==> m[j - 1].Limit() <= m[j].base
  {
    var i := 1;
    while i < |m| - 1
      invariant 1 <= i && (i <= |m| - 1 || i == 1)
      invariant forall j :: 1 <= j < i && j < |m| ==> m[j - 1].Limit() <= m[j].base
    {
      if m[i].base < m[i - 1].base + m[i - 1].length {
        return i;
      }
      i := i + 1;
    }
    return 0;
  }

  method MaxAddress(m: seq<Region>) returns (max: nat)
    requires GoodMap(m)
    ensures max == m[|m| - 1].Limit()
  {
    max := 0;
    LimitsAscend(m);
    for i := 0 to |m|
      invariant max == if i == 0 then 0 else m[i - 1].Limit()
    {
      var limit := m[i].base + m[i].length;
      if limit > max {
        max := limit;
      }
    }
  }

  /** The boot table: a page is free exactly when `MarkedFree` says so, and the table is well linked. */
  method InitMemory(m: seq<Region>) returns (table: array<Page>)
    requires GoodMap(m)
    ensures fresh(table)
    ensures table.Length == m[|m| - 1].Limit() / PAGE_BYTES
    ensures table[..] == BootTable(m, table.Length)
    ensures WellLinked(table[..])
    ensures forall i :: 0 <= i < table.Length ==>
      table[i] == if MarkedFree(m, table.Length, i) then Page(0, false, false, false, true, false)
                  else Page(1, true, false, false, false, false)
    ensures (forall j :: 0 <= j < |m| ==> HoleHarmless(m, table.Length, j)) ==>
      forall i: nat :: i < table.Length ==> RightlyDrawn(m, table[..], i)
  {
    var max := MaxAddress(m);
    var size := max / PAGE_BYTES;
    table := new Page[size](i => CLEARED);
    ghost var want := BootTable(m, size);
    var current := 0;
    for i := 0 to size
      invariant fresh(table)
      invariant current < |m|
      invariant ScannedTo(m, i, current)
      invariant forall k :: 0 <= k < i ==> table[k] == want[k]
    {
      DrawStep(m, size, i, current);
      var lastMax := (if current != 0 then m[current].length else 0) + m[current].base;
      var entryMax := m[current].length + m[current].base;
      if i * PAGE_BYTES >= entryMax {
        current := current + 1;
      }
      if (i * PAGE_BYTES < m[current].base && i * PAGE_BYTES > lastMax)
         || i * PAGE_BYTES < MIB + size * ENTRY_BYTES
         || m[current].kind != USABLE
      {
        table[i] := TAKEN;
      } else {
        table[i] := FREE;
      }
    }
    assert table[..] == want;
    BootIsWellLinked(m, size);
    RightlyDrawnTable(m, size);
  }

  /** `current` is the region of the page before page `i`. */
  ghost predicate ScannedTo(m: seq<Region>, i: nat, current: nat) {
    if i == 0 then current == 0 else current == RegionAt(m, (i - 1) * PAGE_BYTES)
  }

  /** The test that `init_memory` makes at a page is `MarkedFree`. */
  lemma DrawIsMarked(m: seq<Region>, size: nat, i: nat, lastMax: nat, entryMax: nat, current: nat)
    requires GoodMap(m) && current < |m| && RegionAt(m, i * PAGE_BYTES) == current
    requires || (i * PAGE_BYTES < entryMax && entryMax == m[current].Limit()
                 && (current == 0 || m[current - 1].Limit() < i * PAGE_BYTES)
                 && lastMax == if current == 0 then m[0].base else m[current].Limit())
             || (0 < current && i * PAGE_BYTES == entryMax == m[current - 1].Limit()
                 && lastMax == if current == 1 then m[0].base else m[current - 1].Limit())
    ensures MarkedFree(m, size, i) <==>
      !((i * PAGE_BYTES < m[current].base && i * PAGE_BYTES > lastMax)
        || i * PAGE_BYTES < TableEnd(size) || m[current].kind != USABLE)
  {
    LimitsAscend(m);
    assert 0 < m[0].length;
    if HoleEdge(m, i * PAGE_BYTES) {
      RegionAtIs(m, i * PAGE_BYTES, 1);
    }
  }

  lemma ReachesLimit(m: seq<Region>, i: nat, current: nat)
    requires GoodMap(m) && current < |m| && ScannedTo(m, i, current)
    ensures i * PAGE_BYTES >= m[current].Limit() ==> i * PAGE_BYTES == m[current].Limit()
    ensures current == 0 || m[current - 1].Limit() < i * PAGE_BYTES
  {
    assert RegionOk(m, current);
    LimitAligned(m, current);
    if 0 < i {
      var addr := (i - 1) * PAGE_BYTES;
      assert addr < m[current].Limit();
    }
    AlignedBetween(i, m[current].Limit());
  }

  /** The index that the scan moves to at page `i`. */
  function NextRegion(m: seq<Region>, i: nat, current: nat): nat
    requires current < |m|
  {
    if i * PAGE_BYTES >= m[current].Limit() then current + 1 else current
  }

  /** The scan's region index moves on by at most one and stays the region at the page. */
  lemma RegionAdvances(m: seq<Region>, i: nat, current: nat)
    requires GoodMap(m) && i * PAGE_BYTES < m[|m| - 1].Limit() && current < |m|
    requires ScannedTo(m, i, current)
    ensures RegionAt(m, i * PAGE_BYTES) == NextRegion(m, i, current) < |m|
    ensures ScannedTo(m, i + 1, NextRegion(m, i, current))
    ensures current == 0 || m[current - 1].Limit() < i * PAGE_BYTES
    ensures i * PAGE_BYTES >= m[current].Limit() ==> i * PAGE_BYTES == m[current].Limit()
  {
    ReachesLimit(m, i, current);
    RegionFollows(m, i * PAGE_BYTES, current);
  }

  /** Between the end of the region before `j` and the end of the map, at or below the end of region `j`. */
  lemma RegionFollows(m: seq<Region>, addr: nat, j: nat)
    requires GoodMap(m) && j < |m| && addr < m[|m| - 1].Limit()
    requires (j == 0 || m[j - 1].Limit() <= addr) && addr <= m[j].Limit()
    ensures RegionAt(m, addr) == (if addr >= m[j].Limit() then j + 1 else j) < |m|
  {
    if addr >= m[j].Limit() {
      assert j + 1 < |m|;
      LimitsBelow(m, j + 1);
      RegionAtIs(m, addr, j + 1);
    } else {
      RegionAtIs(m, addr, j);
    }
  }

  lemma LimitAligned(m: seq<Region>, j: nat)
    requires GoodMap(m) && j < |m|
    ensures m[j].Limit() % PAGE_BYTES == 0
  {
    assert RegionOk(m, j);
  }

  lemma AlignedBetween(i: nat, limit: nat)
    requires limit % PAGE_BYTES == 0
    ensures (i - 1) * PAGE_BYTES < limit <= i * PAGE_BYTES ==> limit == i * PAGE_BYTES
  {
  }

  lemma {:induction false} LimitsBelow(m: seq<Region>, k: nat)
    requires GoodMap(m) && k < |m|
    ensures forall j :: 0 <= j < k ==> m[j].Limit() <= m[k].base
    ensures m[k].base < m[k].Limit()
  {
    assert RegionOk(m, k);
    if 0 < k {
      LimitsBelow(m, k - 1);
      assert RegionOk(m, k - 1);
    }
  }

  lemma LimitsAscend(m: seq<Region>)
    requires GoodMap(m)
    ensures forall j, k :: 0 <= j < k < |m| ==> m[j].Limit() <= m[k].base
    ensures forall k :: 0 <= k < |m| ==> m[k].base < m[k].Limit()
  {
    forall k | 0 <= k < |m|
      ensures forall j :: 0 <= j < k ==> m[j].Limit() <= m[k].base
      ensures m[k].base < m[k].Limit()
    {
      LimitsBelow(m, k);
    }
  }

  lemma RegionAtIs(m: seq<Region>, addr: nat, j: nat)
    requires GoodMap(m) && j < |m| && addr < m[j].Limit()
    requires j == 0 || m[j - 1].Limit() <= addr
    ensures RegionAt(m, addr) == j
  {
    LimitsAscend(m);
  }

  /** One turn of the loop of `init_memory`: the region index and the entry it draws. */
  lemma DrawStep(m: seq<Region>, size: nat, i: nat, current: nat)
    requires GoodMap(m) && i < size && i * PAGE_BYTES < m[|m| - 1].Limit() && current < |m|
    requires ScannedTo(m, i, current)
    ensures var lastMax := (if current != 0 then m[current].length else 0) + m[current].base;
      var next := if i * PAGE_BYTES >= m[current].length + m[current].base then current + 1 else current;
      && next < |m| && ScannedTo(m, i + 1, next)
      && BootTable(m, size)[i] ==
           if (i * PAGE_BYTES < m[next].base && i * PAGE_BYTES > lastMax)
              || i * PAGE_BYTES < MIB + size * ENTRY_BYTES || m[next].kind != USABLE
           then TAKEN else FREE
  {
    RegionAdvances(m, i, current);
    var lastMax := (if current != 0 then m[current].length else 0) + m[current].base;
    DrawIsMarked(m, size, i, lastMax, m[current].Limit(), RegionAt(m, i * PAGE_BYTES));
  }

  lemma BootIsWellLinked(m: seq<Region>, size: nat)
    requires GoodMap(m) && size == m[|m| - 1].Limit() / PAGE_BYTES
    ensures WellLinked(BootTable(m, size))
  {
    var t := BootTable(m, size);
    assert RegionOk(m, |m| - 1);
    assert forall i: nat :: i < size ==> BackgroundAt(t, i) && LinkedAt(t, i);
  }

  // ----- when the boot table is exact

  /** The page's address lies in a usable region of the map. */
  ghost predicate InUsable(m: seq<Region>, addr: nat) {
    exists j :: 0 <= j < |m| && m[j].base <= addr < m[j].base + m[j].length && m[j].kind == 1
  }

  /** A page is clear exactly when it lies above the page table, two bytes a page from 1 MiB on, in a region of
      type 1. */
  ghost predicate RightlyDrawn(m: seq<Region>, t: seq<Page>, i: nat)
    requires i < |t|
  {
    t[i].Clear() <==> 0x10_0000 + 2 * |t| <= i * 4096 && InUsable(m, i * 4096)
  }

  function PreviousLimit(m: seq<Region>, j: nat): nat
    requires j < |m|
  {
    if j == 0 then 0 else m[j - 1].Limit()
  }

  /** The hole below region `j` draws no free page: the region is not usable, or there is no hole, or
      the hole ends below the end of the page table, or it is the one page after region 0. */
  predicate HoleHarmless(m: seq<Region>, size: nat, j: nat)
    requires j < |m|
  {
    || m[j].kind != USABLE
    || m[j].base == PreviousLimit(m, j)
    || m[j].base < TableEnd(size) + PAGE_BYTES
    || (j == 1 && m[1].base == m[0].Limit() + PAGE_BYTES)
  }

  lemma RegionBounds(m: seq<Region>, addr: nat)
    requires GoodMap(m) && addr < m[|m| - 1].Limit()
    ensures var j := RegionAt(m, addr); j < |m| && PreviousLimit(m, j) <= addr < m[j].Limit()
    ensures InUsable(m, addr) <==> m[RegionAt(m, addr)].base <= addr && m[RegionAt(m, addr)].kind == USABLE
  {
    var j := RegionAt(m, addr);
    LimitsAscend(m);
    if InUsable(m, addr) {
      var k :| 0 <= k < |m| && m[k].base <= addr < m[k].Limit() && m[k].kind == USABLE;
    }
  }

  lemma AdvancePastHole(m: seq<Region>, j: nat, addr: nat)
    requires GoodMap(m) && j < |m| && PreviousLimit(m, j) <= addr < m[j].base
    ensures RegionAt(m, addr) == j && addr < m[|m| - 1].Limit()
    ensures !InUsable(m, addr)
  {
    RegionAtIs(m, addr, j);
    LimitsAscend(m);
    RegionBounds(m, addr);
  }

  lemma HarmlessHolesAreExact(m: seq<Region>, size: nat, i: nat)
    requires GoodMap(m) && size == m[|m| - 1].Limit() / PAGE_BYTES && i < size
    requires forall j :: 0 <= j < |m| ==> HoleHarmless(m, size, j)
    ensures MarkedFree(m, size, i) <==> InUsable(m, i * PAGE_BYTES) && TableEnd(size) <= i * PAGE_BYTES
  {
    var addr := i * PAGE_BYTES;
    RegionBounds(m, addr);
    var j := RegionAt(m, addr);
    assert HoleHarmless(m, size, j);
    assert RegionOk(m, j);
    LimitsAscend(m);
  }

  lemma ExactTablesHaveHarmlessHoles(m: seq<Region>, size: nat, j: nat)
    requires GoodMap(m) && size == m[|m| - 1].Limit() / PAGE_BYTES && j < |m|
    requires forall i: nat :: i < size ==>
      (MarkedFree(m, size, i) <==> InUsable(m, i * PAGE_BYTES) && TableEnd(size) <= i * PAGE_BYTES)
    ensures HoleHarmless(m, size, j)
  {
    if m[j].kind == USABLE && m[j].base != PreviousLimit(m, j) && TableEnd(size) + PAGE_BYTES <= m[j].base {
      var i := m[j].base / PAGE_BYTES - 1;
      var addr := i * PAGE_BYTES;
      assert RegionOk(m, j);
      LimitsAscend(m);
      if 0 < j {
        LimitAligned(m, j - 1);
      }
      AdvancePastHole(m, j, addr);
      assert i < size;
      assert HoleEdge(m, addr);
      RegionAtIs(m, addr, 1);
    }
  }

  /** Exactly when the boot table is right: a page is free exactly when it lies in a usable region at or
      above the end of the page table, if and only if every hole of the map is harmless. */
  lemma BootMapExact(m: seq<Region>, size: nat)
    requires GoodMap(m) && size == m[|m| - 1].Limit() / PAGE_BYTES
    ensures (forall i: nat :: i < size ==>
               (MarkedFree(m, size, i) <==> InUsable(m, i * 4096) && 0x10_0000 + 2 * size <= i * 4096))
            <==> forall j :: 0 <= j < |m| ==> HoleHarmless(m, size, j)
  {
    if forall j :: 0 <= j < |m| ==> HoleHarmless(m, size, j) {
      forall i: nat | i < size
        ensures MarkedFree(m, size, i) <==> InUsable(m, i * PAGE_BYTES) && TableEnd(size) <= i * PAGE_BYTES
      {
        HarmlessHolesAreExact(m, size, i);
      }
    }
    if forall i: nat :: i < size ==>
      (MarkedFree(m, size, i) <==> InUsable(m, i * PAGE_BYTES) && TableEnd(size) <= i * PAGE_BYTES)
    {
      forall j: nat | j < |m|
        ensures HoleHarmless(m, size, j)
      {
        ExactTablesHaveHarmlessHoles(m, size, j);
      }
    }
  }

  lemma RightlyDrawnTable(m: seq<Region>, size: nat)
    requires GoodMap(m) && size == m[|m| - 1].Limit() / PAGE_BYTES
    ensures (forall j :: 0 <= j < |m| ==> HoleHarmless(m, size, j)) ==>
      forall i: nat :: i < size ==> RightlyDrawn(m, BootTable(m, size), i)
  {
    if forall j :: 0 <= j < |m| ==> HoleHarmless(m, size, j) {
      forall i: nat | i < size
        ensures RightlyDrawn(m, BootTable(m, size), i)
      {
        HarmlessHolesAreExact(m, size, i);
      }
    }
  }

  /** A map whose hole is handed out: 4 MiB usable, a hole of two pages, then usable memory again. */
  lemma HoleIsHandedOut()
    ensures var m := [Region(0, 0x40_0000, USABLE), Region(0x40_2000, 0x10_0000, USABLE)];
      && GoodMap(m)
      && var size := m[|m| - 1].Limit() / PAGE_BYTES;
         MarkedFree(m, size, 0x401) && !InUsable(m, 0x40_1000)
  {
    var m := [Region(0, 0x40_0000, USABLE), Region(0x40_2000, 0x10_0000, USABLE)];
    assert RegionAt(m, 0x40_1000) == 1;
  }

  /** The runs of a boot table are its taken pages, one by one, and process 1 owns them all. */
  lemma BootPagesBelongToProcessOne(m: seq<Region>, size: nat)
    ensures forall s: nat :: s in Runs(BootTable(m, size)) <==> s < size && !MarkedFree(m, size, s)
    ensures forall s: nat :: s in Runs(BootTable(m, size)) ==> Runs(BootTable(m, size))[s] == Run(1, 1)
  {
  }
}
