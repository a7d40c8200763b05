/** The page table of kernel/memory/mmanager.c as the object its calls update in place.

    `check_free` tests pages up to the wrong end.  `CheckFree` tests the range that the comment at
    lines 93-98 describes; `CheckFreeAsWritten` is the source's loop, and `AsWrittenExact` says for
    which requests the two allocate alike. */
module PageTables {
  import opened Basics
  import opened Pages
  import opened Allocator

  class PageTable {
    const table: array<Page>

    constructor (boot: array<Page>)
      ensures table == boot
    {
      table := boot;
    }

    ghost predicate Valid()
      reads table
    {
      WellLinked(table[..])
    }

    method CheckFree(start: nat, size: int) returns (ok: bool)
      requires start < table.Length
      ensures ok <==> start + size <= table.Length && forall k :: start <= k < start + size ==> table[k].Clear()
    {
      if start + size > table.Length {
        return false;
      }
      var i := start;
      while i < start + size
        invariant start <= i && (i <= start + size || i == start)
        invariant forall k :: start <= k < i ==> table[k].Clear()
      {
        if table[i].used || table[i].unusable || table[i].reserved {
          return false;
        }
        i := i + 1;
      }
      return true;
    }

    /** The loop of the source: it runs while `i + start < start + size`. */
    method CheckFreeAsWritten(start: nat, size: int) returns (ok: bool)
      requires start < table.Length && size <= table.Length
      ensures ok <==> ClearFrom(table[..], start, size)
    {
      var i := start;
      while i + start < start + size
        invariant start <= i && (i <= size || i == start)
        invariant forall k :: start <= k < i ==> table[k].Clear()
      {
        if table[i].used || table[i].unusable || table[i].reserved {
          return false;
        }
        i := i + 1;
      }
      return true;
    }

    /** The search that the source's test drives. */
    method SearchAsWritten(n: int) returns (r: Option<nat>)
      requires n <= table.Length
      ensures r == AsWrittenStart(table[..], n, FIRST_PAGE)
    {
      var i := FIRST_PAGE;
      while i < table.Length
        invariant FIRST_PAGE <= i
        invariant AsWrittenStart(table[..], n, FIRST_PAGE) == AsWrittenStart(table[..], n, i)
      {
        if !table[i].used && !table[i].unusable {
          var free := CheckFreeAsWritten(i, n);
          if free {
            return Some(i);
          }
        }
        i := i + 1;
      }
      return None;
    }

    /** The loop that writes the entries of a run. */
    method TakeRun(start: nat, n: int, pid: nat)
      requires start < table.Length && start + n <= table.Length
      modifies table
      ensures table[..] == Allocate(old(table[..]), start, n, pid % 256)
    {
      ghost var t := table[..];
      var j := 0;
      while j < n
        invariant 0 <= j && (j <= n || j == 0)
        invariant forall k :: 0 <= k < table.Length ==>
          table[k] == if start <= k < start + j then RunPage(n, k - start, pid % 256) else t[k]
      {
        table[start + j] := Page(pid % 256, true, false, j < n - 1, j > 0, false);
        j := j + 1;
      }
      assert table[..] == Allocate(t, start, n, pid % 256);
    }

    /** First fit: takes the lowest fitting pages and nothing else; fails exactly when none fit. */
    method KUMalloc(n: int, pid: nat) returns (r: Option<nat>)
      requires Valid() && pid < WORD
      modifies table
      ensures Valid()
      ensures (table[..], r) == Step(old(table[..]), Alloc(n, pid))
    {
      ghost var t := table[..];
      StepRefines(t, Alloc(n, pid));
      var i := FIRST_PAGE;
      while i < table.Length
        invariant FIRST_PAGE <= i && table[..] == t
        invariant FirstFit(t, n, FIRST_PAGE) == FirstFit(t, n, i)
      {
        assert BackgroundAt(t, i);
        if !table[i].used && !table[i].unusable {
          var free := CheckFree(i, n);
          if free {
            assert forall k :: i <= k < i + n ==> t[k] == table[k];
            assert Fits(t, i, n);
            TakeRun(i, n, pid);
            return Some(i);
          }
        }
        i := i + 1;
      }
      return None;
    }

    /** The call with the source's own test: with room where its search stops, it is first fit. */
    method KUMallocAsWritten(n: int, pid: nat) returns (r: Option<nat>)
      requires Valid() && pid < WORD && n <= table.Length && RoomAtStop(table[..], n)
      modifies table
      ensures Valid()
      ensures (table[..], r) == Step(old(table[..]), Alloc(n, pid))
    {
      ghost var t := table[..];
      StepRefines(t, Alloc(n, pid));
      AsWrittenFirstFit(t, n);
      r := SearchAsWritten(n);
      if r.Some? {
        TakeRun(r.value, n, pid);
      }
    }

    method KMalloc(n: int) returns (r: Option<nat>)
      requires Valid()
      modifies table
      ensures Valid()
      ensures (table[..], r) == Step(old(table[..]), Alloc(n, 0))
    {
      r := KUMalloc(n, 0);
    }

    /** Frees the whole run around any address inside it. */
    method KFree(addr: nat)
      requires Valid() && addr / PAGE_BYTES < table.Length && table[addr / PAGE_BYTES].Allocated()
      modifies table
      ensures Valid()
      ensures table[..] == Erase(old(table[..]), {RunStart(old(table[..]), addr / PAGE_BYTES)})
    {
      ghost var t := table[..];
      ghost var s := RunStart(t, addr / PAGE_BYTES);
      RunAround(t, addr / PAGE_BYTES);
      RunPages(t, s);
      var i := addr / PAGE_BYTES;
      while table[i].linkLast
        invariant s <= i <= addr / PAGE_BYTES
        invariant RunStart(t, i) == s
        decreases i
      {
        assert InRun(t, s, RunLength(t, s), t[s].pid, i);
        i := i - 1;
      }
      assert InRun(t, s, RunLength(t, s), t[s].pid, i);
      assert i == s;
      ghost var n := RunLength(t, s);
      var more := true;
      while more
        invariant s <= i <= s + n && (more <==> i < s + n)
        invariant forall k :: 0 <= k < table.Length ==> table[k] == if s <= k < i then CLEARED else t[k]
        decreases s + n - i
      {
        var last := table[i];
        assert InRun(t, s, n, t[s].pid, i);
        table[i] := CLEARED;
        i := i + 1;
        more := last.linkNext;
      }
      ErasesInterval(t, s);
      EraseRemovesRuns(t, {s});
      assert table[..] == Erase(t, {s});
    }

    /** One page of the scan over a table from which the owned runs below have been freed: frees the run that
        still starts there. */
    method ScanPage(i: nat, pid: nat, ghost t: seq<Page>) returns (hit: bool)
      requires WellLinked(t) && 0 < pid && FIRST_PAGE <= i < table.Length == |t|
      requires table[..] == Erase(t, OwnedBelow(Runs(t), pid, i))
      modifies table
      ensures table[..] == Erase(t, OwnedBelow(Runs(t), pid, i + 1))
      ensures hit <==> i in Runs(t) && Runs(t)[i].owner == pid
      ensures |OwnedBelow(Runs(t), pid, i + 1)| == |OwnedBelow(Runs(t), pid, i)| + if hit then 1 else 0
    {
      ScanStep(t, pid, i);
      assert table[..][i] == table[i];
      hit := table[i].pid == pid;
      if hit {
        KFree(i * PAGE_BYTES);
      }
    }

    /** Frees the first runs of `pid` in address order, each counted once. */
    method KFreePid(pid: nat, count: nat)
      requires Valid() && 0 < pid < WORD && count < WORD
      modifies table
      ensures Valid()
      ensures table[..] == Erase(old(table[..]), Doomed(Runs(old(table[..])), pid, count))
    {
      ghost var t := table[..];
      ghost var m := Runs(t);
      var num := count;
      var i := FIRST_PAGE;
      assert table[..] == Erase(t, OwnedBelow(m, pid, i));
      EraseRemovesRuns(t, Doomed(m, pid, count));
      while i < table.Length
        invariant FIRST_PAGE <= i
        invariant table[..] == Erase(t, OwnedBelow(m, pid, i))
        invariant if i == FIRST_PAGE then num == count
                  else 0 < num < WORD && num + |OwnedBelow(m, pid, i)| == Budget(m, pid, count)
      {
        OwnedAtMost(t, pid, i + 1);
        var hit := ScanPage(i, pid, t);
        if hit {
          num := if num == 0 then WORD - 1 else num - 1;
        }
        if num == 0 {
          DoomedWhenSpent(t, pid, count, i + 1);
          return;
        }
        i := i + 1;
      }
      DoomedAtEnd(t, pid, count, i);
    }

    /** The number of pages in use, by the source's scan. */
    method GetUsedPages() returns (inUse: nat)
      ensures inUse == |AllocatedPages(table[..])|
    {
      inUse := 0;
      assert AllocatedPages(table[..0]) == {};
      for i := 0 to table.Length
        invariant inUse == |AllocatedPages(table[..i])|
      {
        assert AllocatedPages(table[..i + 1]) == AllocatedPages(table[..i]) + if table[i].Allocated() then {i} else {};
        if table[i].used && !(table[i].unusable || table[i].reserved) {
          inUse := inUse + 1;
        }
      }
      assert table[..table.Length] == table[..];
    }
  }

  // ----- lemmas of the two freeing loops

  lemma ErasesInterval(t: seq<Page>, s: nat)
    requires WellLinked(t) && s in Runs(t)
    ensures forall k :: 0 <= k < |t| ==> Erase(t, {s})[k] == if s <= k < s + RunLength(t, s) then CLEARED else t[k]
  {
    RunPages(t, s);
    forall k: nat | k < |t|
      ensures t[k].Allocated() && RunStart(t, k) == s <==> s <= k < s + RunLength(t, s)
    {
      if t[k].Allocated() {
        RunAround(t, k);
      }
      assert s <= k < s + RunLength(t, s) ==> InRun(t, s, RunLength(t, s), t[s].pid, k);
    }
  }

  /** When the scan reaches page `i`, the page still carries `pid` exactly if an owned run starts there;
      freeing that run is what the next step of the scan owes. */
  lemma ScanStep(t: seq<Page>, pid: nat, i: nat)
    requires WellLinked(t) && 0 < pid && FIRST_PAGE <= i < |t|
    ensures var m, e := Runs(t), Erase(t, OwnedBelow(Runs(t), pid, i));
      && WellLinked(e)
      && (e[i].pid == pid ==>
            && e[i].Allocated() && RunStart(e, i) == i
            && Erase(e, {i}) == Erase(t, OwnedBelow(m, pid, i + 1))
            && i in m && m[i].owner == pid
            && |OwnedBelow(m, pid, i + 1)| == |OwnedBelow(m, pid, i)| + 1)
      && (e[i].pid != pid ==>
            && OwnedBelow(m, pid, i + 1) == OwnedBelow(m, pid, i)
            && !(i in m && m[i].owner == pid))
  {
    var m, below := Runs(t), OwnedBelow(Runs(t), pid, i);
    EraseRemovesRuns(t, below);
    assert BackgroundAt(t, i);
    if t[i].Allocated() {
      RunAround(t, i);
      RunStartsHigh(t, i);
      assert RunStart(t, i) in m;
      assert StartsRun(t, i) ==> RunStart(t, i) == i;
    }
    if Erase(t, below)[i].pid == pid {
      assert OwnedBelow(m, pid, i + 1) == below + {i};
      EraseTwice(t, below, {i});
    } else {
      assert OwnedBelow(m, pid, i + 1) == below;
    }
  }

  /** Once the budget is used up, what was freed is exactly what the call owes. */
  lemma DoomedWhenSpent(t: seq<Page>, pid: nat, k: nat, hi: nat)
    requires FIRST_PAGE < hi
    requires |OwnedBelow(Runs(t), pid, hi)| == Budget(Runs(t), pid, k)
    ensures OwnedBelow(Runs(t), pid, hi) == Doomed(Runs(t), pid, k)
  {
    var m := Runs(t);
    forall s | s in m && FIRST_PAGE <= s && m[s].owner == pid
      ensures s < hi <==> s in Doomed(m, pid, k)
    {
      if s < hi {
        assert s in OwnedBelow(m, pid, hi) && s !in OwnedBelow(m, pid, s);
        assert OwnedBelow(m, pid, s) < OwnedBelow(m, pid, hi);
        SubsetSize(OwnedBelow(m, pid, s), OwnedBelow(m, pid, hi));
      } else {
        assert OwnedBelow(m, pid, hi) <= OwnedBelow(m, pid, s);
        SubsetSize(OwnedBelow(m, pid, hi), OwnedBelow(m, pid, s));
      }
    }
  }

  lemma DoomedAtEnd(t: seq<Page>, pid: nat, k: nat, hi: nat)
    requires |t| <= hi
    requires |OwnedBelow(Runs(t), pid, hi)| < Budget(Runs(t), pid, k) || hi == FIRST_PAGE
    ensures OwnedBelow(Runs(t), pid, hi) == Doomed(Runs(t), pid, k)
  {
    var m := Runs(t);
    forall s | s in m && FIRST_PAGE <= s && m[s].owner == pid
      ensures s in Doomed(m, pid, k)
    {
      assert OwnedBelow(m, pid, s) <= OwnedBelow(m, pid, hi);
      SubsetSize(OwnedBelow(m, pid, s), OwnedBelow(m, pid, hi));
    }
  }
}
