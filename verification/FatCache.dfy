/** The write-back window of kernel/filesystems/fat.c over the file allocation table on disk.

    Five slips of the source are put right here, as its comments intend (lines 17-26, 59, 65, 268): the
    buffer is kept in `fat_cache`, the window's size is known and comes from the field that holds the
    table's size, its base is the start rounded down to a whole sector of entries, and it is written back
    to the sector it came from.  `IndexAsWritten`, `WriteBackAsWritten` and `WindowCovers` say where the
    formulas of the source agree with that.

    One more is kept: `get_next_cluster32` moves the window without writing it back. */
module FatCache {
  import opened Basics
  import opened Chains

  /** `c` rounded down to a whole sector of `e` entries. */
  function RoundDown(c: nat, e: nat): (r: nat)
    requires 0 < e
    ensures r <= c < r + e
  {
    if c < e then 0 else e + RoundDown(c - e, e)
  }

  /** The table on disk, the window in memory, the cluster the window was loaded for, and the geometry:
      entries in a sector and clusters in the volume. */
  datatype Cache = Cache(disk: seq<nat>, window: seq<nat>, start: nat, perSector: nat, total: nat) {
    ghost predicate Ok() {
      && 0 < perSector <= |window| && start < total && total + |window| <= |disk|
    }

    function Base(): (b: nat)
      requires 0 < perSector
    {
      RoundDown(start, perSector)
    }

    predicate InWindow(c: nat)
      requires 0 < perSector
    {
      Base() <= c < Base() + |window|
    }

    /** The flat table: the disk overlaid by the window. */
    ghost function Flat(): (f: seq<nat>)
      requires Ok()
      ensures |f| == total
    {
      seq(total, i requires 0 <= i < total => if InWindow(i) then window[i - Base()] else disk[i])
    }

    /** The window holds nothing that the disk does not. */
    ghost predicate Clean()
      requires Ok()
    {
      forall i :: 0 <= i < total && InWindow(i) ==> window[i - Base()] == disk[i]
    }
  }

  // ----- the operations

  /** `cache_fat32`. */
  function Load(k: Cache, c: nat): Cache
    requires k.Ok() && c < k.total
  {
    var b := RoundDown(c, k.perSector);
    k.(window := k.disk[b..b + |k.window|], start := c)
  }

  /** `write_cache`. */
  function Store(k: Cache): Cache
    requires k.Ok()
  {
    k.(disk := k.disk[..k.Base()] + k.window + k.disk[k.Base() + |k.window|..])
  }

  /** `get_next_cluster32`. */
  function Get(k: Cache, c: nat): (Cache, nat)
    requires k.Ok() && c < k.total
  {
    var k' := if k.InWindow(c) then k else Load(k, c);
    (k', k'.window[c - k'.Base()])
  }

  /** The window brought to cluster `c`, written back first if it has to move. */
  function Fetch(k: Cache, c: nat): Cache
    requires k.Ok() && c < k.total
  {
    if k.InWindow(c) then k else Load(Store(k), c)
  }

  /** `set_next_cluster32`. */
  function Set(k: Cache, c: nat, next: nat): Cache
    requires k.Ok() && c < k.total
  {
    var k' := Fetch(k, c);
    k'.(window := k'.window[c - k'.Base() := if c == next then NONE else next])
  }

  lemma StoreKeepsFlat(k: Cache)
    requires k.Ok()
    ensures Store(k).Ok() && Store(k).Flat() == k.Flat()
    ensures forall i :: 0 <= i < k.total ==> Store(k).disk[i] == k.Flat()[i]
  {
  }

  lemma LoadShowsDisk(k: Cache, c: nat)
    requires k.Ok() && c < k.total
    ensures Load(k, c).Ok() && Load(k, c).InWindow(c) && Load(k, c).Clean()
    ensures Load(k, c).Flat() == k.disk[..k.total]
  {
  }

  /** Writing the window back and loading another one shows the same flat table. */
  lemma FetchKeepsFlat(k: Cache, c: nat)
    requires k.Ok() && c < k.total
    ensures Fetch(k, c).Ok() && Fetch(k, c).InWindow(c) && Fetch(k, c).Flat() == k.Flat()
  {
    if !k.InWindow(c) {
      StoreKeepsFlat(k);
      LoadShowsDisk(Store(k), c);
      assert Store(k).disk[..k.total] == k.Flat();
    }
  }

  lemma CleanShowsDisk(k: Cache)
    requires k.Ok()
    ensures k.Clean() <==> k.Flat() == k.disk[..k.total]
  {
    if !k.Clean() {
      var i :| 0 <= i < k.total && k.InWindow(i) && k.window[i - k.Base()] != k.disk[i];
      assert k.Flat()[i] != k.disk[..k.total][i];
    }
  }

  lemma PutInside(k: Cache, c: nat, v: nat)
    requires k.Ok() && c < k.total && k.InWindow(c)
    ensures var k' := k.(window := k.window[c - k.Base() := v]); k'.Ok() && k'.Flat() == k.Flat()[c := v]
  {
    var k' := k.(window := k.window[c - k.Base() := v]);
    assert k'.Base() == k.Base();
    forall i: nat | i < k.total
      ensures k'.Flat()[i] == k.Flat()[c := v][i]
    {
      if k.InWindow(i) && i != c {
        assert i - k.Base() != c - k.Base();
      }
    }
  }

  /** A set is a set on the flat table, wherever the window is. */
  lemma SetRefines(k: Cache, c: nat, next: nat)
    requires k.Ok() && c < k.total
    ensures Set(k, c, next).Ok() && Set(k, c, next).Flat() == SetNext(k.Flat(), c, next)
  {
    FetchKeepsFlat(k, c);
    PutInside(Fetch(k, c), c, if c == next then NONE else next);
  }

  /** Exactly when a get is a get on the flat table: when the cluster lies in the window, or the window holds
      nothing unsaved. */
  lemma GetExact(k: Cache, c: nat)
    requires k.Ok() && c < k.total
    ensures Get(k, c).0.Ok()
    ensures k.InWindow(c) || k.Clean() ==> Get(k, c).0.Flat() == k.Flat() && Get(k, c).1 == k.Flat()[c]
    ensures !(k.InWindow(c) || k.Clean()) ==> Get(k, c).0.Flat() != k.Flat()
  {
    if !k.InWindow(c) {
      LoadShowsDisk(k, c);
      CleanShowsDisk(k);
    }
  }

  // ----- runs

  datatype FatOp = GetOp(cluster: nat) | SetOp(cluster: nat, next: nat)

  function CacheStep(k: Cache, op: FatOp): (k': Cache)
    requires k.Ok() && op.cluster < k.total
    ensures k'.Ok() && k'.total == k.total
  {
    match op
    case GetOp(c) => Get(k, c).0
    case SetOp(c, next) => SetRefines(k, c, next); Set(k, c, next)
  }

  predicate InVolume(ops: seq<FatOp>, total: nat) {
    forall i :: 0 <= i < |ops| ==> ops[i].cluster < total
  }

  /** Step by step, the cache does to the flat table what the call says, and gets read the flat table. */
  ghost predicate Agrees(k: Cache, ops: seq<FatOp>)
    requires k.Ok() && InVolume(ops, k.total)
    decreases |ops|
  {
    ops == [] || (
      var k' := CacheStep(k, ops[0]);
      && (ops[0].GetOp? ==> Get(k, ops[0].cluster).1 == k.Flat()[ops[0].cluster] && k'.Flat() == k.Flat())
      && (ops[0].SetOp? ==> k'.Flat() == SetNext(k.Flat(), ops[0].cluster, ops[0].next))
      && Agrees(k', ops[1..]))
  }

  /** No get leaves a window with unsaved entries. */
  ghost predicate Safe(k: Cache, ops: seq<FatOp>)
    requires k.Ok() && InVolume(ops, k.total)
    decreases |ops|
  {
    ops == [] || (
      && (ops[0].GetOp? ==> k.InWindow(ops[0].cluster) || k.Clean())
      && Safe(CacheStep(k, ops[0]), ops[1..]))
  }

  /** Exactly which runs refine the flat table: those in which no get leaves a window with unsaved entries. */
  lemma {:induction false} RunExact(k: Cache, ops: seq<FatOp>)
    requires k.Ok() && InVolume(ops, k.total)
    ensures Agrees(k, ops) <==> Safe(k, ops)
    decreases |ops|
  {
    if ops != [] {
      match ops[0] {
        case GetOp(c) => GetExact(k, c);
        case SetOp(c, next) => SetRefines(k, c, next);
      }
      RunExact(CacheStep(k, ops[0]), ops[1..]);
    }
  }

  /** The state that the run leaves. */
  function CacheRun(k: Cache, ops: seq<FatOp>): (k': Cache)
    requires k.Ok() && InVolume(ops, k.total)
    ensures k'.Ok() && k'.total == k.total
    decreases |ops|
  {
    if ops == [] then k else CacheRun(CacheStep(k, ops[0]), ops[1..])
  }

  /** The value that the last set of entry `c` stores, if the run sets it. */
  function LastSet(ops: seq<FatOp>, c: nat): Option<nat>
    decreases |ops|
  {
    if ops == [] then None
    else
      var later := LastSet(ops[1..], c);
      if later.Some? || ops[0].GetOp? || ops[0].cluster != c then later
      else Some(if ops[0].next == c then NONE else ops[0].next)
  }

  lemma {:induction false} FlatHoldsLastSet(k: Cache, ops: seq<FatOp>, c: nat)
    requires k.Ok() && InVolume(ops, k.total) && Safe(k, ops) && c < k.total
    ensures var last := LastSet(ops, c);
      CacheRun(k, ops).Flat()[c] == if last.Some? then last.value else k.Flat()[c]
    decreases |ops|
  {
    if ops != [] {
      FlatHoldsLastSet(CacheStep(k, ops[0]), ops[1..], c);
      match ops[0] {
        case GetOp(d) => GetExact(k, d);
        case SetOp(d, next) => SetRefines(k, d, next);
      }
    }
  }

  /** From a window that shows the disk, after any safe run, a safe get reads the last value set, or the disk
      value if none was set. */
  lemma ReadsLastSet(k: Cache, ops: seq<FatOp>, c: nat)
    requires k.Ok() && k.Clean() && InVolume(ops, k.total) && Safe(k, ops) && c < k.total
    requires CacheRun(k, ops).InWindow(c) || CacheRun(k, ops).Clean()
    ensures var last := LastSet(ops, c);
      Get(CacheRun(k, ops), c).1 == if last.Some? then last.value else k.disk[c]
  {
    FlatHoldsLastSet(k, ops, c);
    GetExact(CacheRun(k, ops), c);
    CleanShowsDisk(k);
  }

  // ----- a get that saves the window first

  /** `get_next_cluster32` as it is meant to be: like a set, it writes the window back before moving it. */
  function SavingGet(k: Cache, c: nat): (Cache, nat)
    requires k.Ok() && c < k.total
  {
    var k' := Fetch(k, c);
    FetchKeepsFlat(k, c);
    (k', k'.window[c - k'.Base()])
  }

  function SavingStep(k: Cache, op: FatOp): (k': Cache)
    requires k.Ok() && op.cluster < k.total
    ensures k'.Ok() && k'.total == k.total
  {
    match op
    case GetOp(c) => FetchKeepsFlat(k, c); SavingGet(k, c).0
    case SetOp(c, next) => SetRefines(k, c, next); Set(k, c, next)
  }

  function SavingRun(k: Cache, ops: seq<FatOp>): (k': Cache)
    requires k.Ok() && InVolume(ops, k.total)
    ensures k'.Ok() && k'.total == k.total
    decreases |ops|
  {
    if ops == [] then k else SavingRun(SavingStep(k, ops[0]), ops[1..])
  }

  /** The run on a flat table, which only sets change. */
  function FlatRun(fat: seq<nat>, ops: seq<FatOp>): (r: seq<nat>)
    requires InVolume(ops, |fat|)
    ensures |r| == |fat|
    decreases |ops|
  {
    if ops == [] then fat
    else if ops[0].GetOp? then FlatRun(fat, ops[1..])
    else FlatRun(SetNext(fat, ops[0].cluster, ops[0].next), ops[1..])
  }

  lemma ReadInside(k: Cache, c: nat)
    requires k.Ok() && c < k.total && k.InWindow(c)
    ensures k.window[c - k.Base()] == k.Flat()[c]
  {
  }

  lemma SavingGetRefines(k: Cache, c: nat)
    requires k.Ok() && c < k.total
    ensures SavingGet(k, c).0.Flat() == k.Flat() && SavingGet(k, c).1 == k.Flat()[c]
  {
    FetchKeepsFlat(k, c);
    ReadInside(Fetch(k, c), c);
  }

  /** With gets that save the window, every run with whatever moves of the window refines the flat table. */
  lemma {:induction false} SavingRunRefines(k: Cache, ops: seq<FatOp>)
    requires k.Ok() && InVolume(ops, k.total)
    ensures SavingRun(k, ops).Flat() == FlatRun(k.Flat(), ops)
    decreases |ops|
  {
    if ops != [] {
      match ops[0] {
        case GetOp(c) => SavingGetRefines(k, c);
        case SetOp(c, next) => SetRefines(k, c, next);
      }
      SavingRunRefines(SavingStep(k, ops[0]), ops[1..]);
    }
  }

  lemma {:induction false} FlatRunHoldsLastSet(fat: seq<nat>, ops: seq<FatOp>, c: nat)
    requires InVolume(ops, |fat|) && c < |fat|
    ensures var last := LastSet(ops, c);
      FlatRun(fat, ops)[c] == if last.Some? then last.value else fat[c]
    decreases |ops|
  {
    if ops != [] {
      match ops[0] {
        case GetOp(d) => FlatRunHoldsLastSet(fat, ops[1..], c);
        case SetOp(d, next) => FlatRunHoldsLastSet(SetNext(fat, d, next), ops[1..], c);
      }
    }
  }

  /** After any run, such a get reads the last value set, or the disk value if none was set. */
  lemma SavingGetReadsLastSet(k: Cache, ops: seq<FatOp>, c: nat)
    requires k.Ok() && k.Clean() && InVolume(ops, k.total) && c < k.total
    ensures var last := LastSet(ops, c);
      SavingGet(SavingRun(k, ops), c).1 == if last.Some? then last.value else k.disk[c]
  {
    SavingRunRefines(k, ops);
    SavingGetRefines(SavingRun(k, ops), c);
    FlatRunHoldsLastSet(k.Flat(), ops, c);
    CleanShowsDisk(k);
  }

  // ----- the calls of the writer

  /** The calls of a search from `i` on: a read of each entry up to the first free one. */
  function SearchOps(fat: seq<nat>, i: nat): seq<FatOp>
    decreases |fat| - i
  {
    if i >= |fat| then []
    else if fat[i] == 0 then [GetOp(i)]
    else [GetOp(i)] + SearchOps(fat, i + 1)
  }

  /** The calls of one turn of `fat32_write` on the flat table. */
  function TurnOps(s: State): seq<FatOp> {
    if s.cluster >= |s.fat| then []
    else if s.fat[s.cluster] < END then [GetOp(s.cluster)]
    else
      var f := FindFree(s.fat, s.hint);
      [GetOp(s.cluster)] + (SearchOps(s.fat, SearchStart(s.hint)) + [SetOp(s.cluster, f), SetOp(f, NONE)])
  }

  /** The calls of the turns from each state to the one after it. */
  function TurnsOps(ss: seq<State>, i: nat): seq<FatOp>
    decreases |ss| - i
  {
    if i + 1 >= |ss| then [] else TurnOps(ss[i]) + TurnsOps(ss, i + 1)
  }

  /** The calls of `n` turns. */
  function WriteOps(s: State, n: nat): seq<FatOp>
    requires WriteSteps(s, n).Some?
  {
    TurnsOps(States(s, n), 0)
  }

  /** Call `i` is inside the volume, leaves no window with unsaved entries to read, and leads to the next state. */
  ghost predicate SafeStep(ks: seq<Cache>, ops: seq<FatOp>, i: nat)
    requires i < |ops| && i + 1 < |ks|
  {
    && ks[i].Ok() && ops[i].cluster < ks[i].total
    && (ops[i].GetOp? ==> ks[i].InWindow(ops[i].cluster) || ks[i].Clean())
    && ks[i + 1] == CacheStep(ks[i], ops[i])
  }

  ghost predicate SafeTrace(ks: seq<Cache>, ops: seq<FatOp>) {
    |ks| == |ops| + 1 && ks[0].Ok() && forall i :: 0 <= i < |ops| ==> SafeStep(ks, ops, i)
  }

  /** The run goes through safe states. */
  ghost predicate SafeRun(k: Cache, ops: seq<FatOp>) {
    exists ks :: SafeTrace(ks, ops) && ks[0] == k
  }

  /** A safe run begins with a call that refines the flat table, and goes on safely. */
  lemma SafeFirst(k: Cache, op: FatOp, rest: seq<FatOp>)
    requires SafeRun(k, [op] + rest)
    ensures k.Ok() && op.cluster < k.total && SafeRun(CacheStep(k, op), rest)
    ensures op.GetOp? ==> Get(k, op.cluster).1 == k.Flat()[op.cluster] && CacheStep(k, op).Flat() == k.Flat()
    ensures op.SetOp? ==> CacheStep(k, op).Flat() == SetNext(k.Flat(), op.cluster, op.next)
  {
    var ops := [op] + rest;
    var ks :| SafeTrace(ks, ops) && ks[0] == k;
    assert SafeStep(ks, ops, 0);
    forall i | 0 <= i < |rest|
      ensures SafeStep(ks[1..], rest, i)
    {
      assert SafeStep(ks, ops, i + 1);
    }
    assert SafeTrace(ks[1..], rest);
    match op {
      case GetOp(c) => GetExact(k, c);
      case SetOp(c, next) => SetRefines(k, c, next);
    }
  }

  lemma {:induction false} SafeRunIsSafe(k: Cache, ops: seq<FatOp>)
    requires k.Ok() && InVolume(ops, k.total)
    ensures SafeRun(k, ops) <==> Safe(k, ops)
    decreases |ops|
  {
    if ops == [] {
      assert SafeTrace([k], ops);
    } else {
      assert ops == [ops[0]] + ops[1..];
      SafeRunIsSafe(CacheStep(k, ops[0]), ops[1..]);
      if SafeRun(k, ops) {
        SafeFirst(k, ops[0], ops[1..]);
        var ks :| SafeTrace(ks, ops) && ks[0] == k;
        assert SafeStep(ks, ops, 0);
      }
      if Safe(k, ops) {
        var ks :| SafeTrace(ks, ops[1..]) && ks[0] == CacheStep(k, ops[0]);
        PrependSafe(k, ks, ops);
      }
    }
  }

  lemma PrependSafe(k: Cache, ks: seq<Cache>, ops: seq<FatOp>)
    requires ops != [] && k.Ok() && ops[0].cluster < k.total
    requires SafeTrace(ks, ops[1..]) && ks[0] == CacheStep(k, ops[0])
    requires ops[0].GetOp? ==> k.InWindow(ops[0].cluster) || k.Clean()
    ensures SafeRun(k, ops)
  {
    var all := [k] + ks;
    forall i | 0 <= i < |ops|
      ensures SafeStep(all, ops, i)
    {
      if 0 < i {
        assert SafeStep(ks, ops[1..], i - 1);
      }
    }
    assert SafeTrace(all, ops);
  }

  /** The window holds the whole volume (`WindowCovers`), loaded from the table's first sector on. */
  predicate Covers(k: Cache) {
    0 < k.perSector && k.start < k.perSector && k.total <= |k.window|
  }

  /** With such a window every run refines the flat table and the window never moves. */
  lemma {:induction false} CoveringRunsAgree(k: Cache, ops: seq<FatOp>)
    requires k.Ok() && Covers(k) && InVolume(ops, k.total)
    ensures Agrees(k, ops) && SafeRun(k, ops)
    decreases |ops|
  {
    RunExact(k, ops);
    SafeRunIsSafe(k, ops);
    if ops != [] {
      CoveringRunsAgree(CacheStep(k, ops[0]), ops[1..]);
      RunExact(CacheStep(k, ops[0]), ops[1..]);
    }
  }

  /** A lost update: two entries, a window of one.  The value set in entry 0 is gone after a look at entry 1. */
  lemma GetLosesAnUpdate()
    ensures var k := Cache([5, 6, 0], [5], 0, 1, 2);
      && k.Ok()
      && var k1 := Set(k, 0, 7);
      var k2 := Get(k1, 1).0;
      && k1.Ok() && k2.Ok() && k1.Flat() == [7, 6] && Get(k2, 0).1 == 5
  {
    assert RoundDown(0, 1) == 0 && RoundDown(1, 1) == 1;
    AfterSet();
    AfterGet();
  }

  lemma AfterSet()
    ensures var k := Cache([5, 6, 0], [5], 0, 1, 2);
      && k.Ok() && Set(k, 0, 7) == Cache([5, 6, 0], [7], 0, 1, 2)
      && Cache([5, 6, 0], [7], 0, 1, 2).Ok() && Cache([5, 6, 0], [7], 0, 1, 2).Flat() == [7, 6]
  {
    assert RoundDown(0, 1) == 0;
    assert [5][0 := 7] == [7];
  }

  lemma AfterGet()
    ensures Get(Cache([5, 6, 0], [7], 0, 1, 2), 1).0 == Cache([5, 6, 0], [6], 1, 1, 2)
    ensures Get(Cache([5, 6, 0], [6], 1, 1, 2), 0).1 == 5
  {
    assert RoundDown(0, 1) == 0 && RoundDown(1, 1) == 1;
  }

  // ----- the formulas as the source writes them

  lemma {:induction false} RoundDownIs(c: nat, e: nat, q: nat)
    requires 0 < e && q * e <= c < q * e + e
    ensures RoundDown(c, e) == q * e
    decreases c
  {
    if q == 0 {
      assert q * e == 0;
    } else {
      assert q * e == e + (q - 1) * e;
      assert (q - 1) * e >= 0;
      RoundDownIs(c - e, e, q - 1);
    }
  }

  /** The base that lines 59-72 compute: the start divided by the bytes of a sector, and again by four. */
  function BaseAsWritten(start: nat, perSector: nat): nat
    requires 0 < perSector
  {
    start / (4 * perSector) / 4
  }

  /** Exactly when that is the first entry of the sector the window was read from: in the first sector. */
  lemma IndexAsWritten(start: nat, perSector: nat)
    requires 0 < perSector
    ensures BaseAsWritten(start, perSector) == RoundDown(start, perSector) <==> start < perSector
    ensures var b := BaseAsWritten(start, perSector); b * (16 * perSector) <= start < (b + 1) * (16 * perSector)
  {
    TwoDivisions(start, 4 * perSector);
    var q := start / (4 * perSector);
    if start < perSector {
      DivBelow(start, 4 * perSector);
    } else {
      DivSmall(start, 4 * perSector);
      assert perSector <= RoundDown(start, perSector);
    }
  }

  lemma TwoDivisions(a: nat, b: nat)
    requires 0 < b
    ensures a / b / 4 * (4 * b) <= a < (a / b / 4 + 1) * (4 * b)
  {
    var q := a / b;
    assert q * b <= a < q * b + b;
    assert q == 4 * (q / 4) + q % 4;
    assert q * b == (q / 4) * (4 * b) + (q % 4) * b;
    assert (q % 4) * b + b <= 4 * b;
  }

  lemma DivBelow(a: nat, b: nat)
    requires a < b
    ensures a / b == 0
  {
  }

  lemma DivSmall(a: nat, b: nat)
    requires 4 <= b
    ensures 4 * (a / b) <= a
  {
    assert (a / b) * b <= a;
    assert (a / b) * b == 4 * (a / b) + (a / b) * (b - 4);
  }

  /** The sector that line 26 writes back to is the one the window came from (line 22) exactly when the
      start is cluster 0 or a sector holds one entry. */
  lemma WriteBackAsWritten(start: nat, perSector: nat)
    requires 0 < perSector
    ensures start == start / perSector <==> start == 0 || perSector == 1
  {
    if 0 < start && 1 < perSector {
      assert (start / perSector) * perSector <= start;
      assert (start / perSector) * perSector == (start / perSector) * 2 + (start / perSector) * (perSector - 2);
    }
  }

  /** How many sectors of the table line 268 keeps in the window. */
  function WindowSectors(field: nat): nat {
    if field < 2048 then field else 2048
  }

  /** A window sized by the number of sectors that hold the table covers the volume exactly when its entries fit
      in 2048 sectors.  Line 268 reads the 16-bit field of the older formats, which is 0 on FAT32, and sets up
      an empty window; line 255 reads the right one. */
  lemma WindowCovers(sectors: nat, perSector: nat, total: nat)
    requires 0 < perSector && 0 < total <= sectors * perSector
    ensures total <= WindowSectors(sectors) * perSector <==> total <= 2048 * perSector
    ensures !(total <= WindowSectors(0) * perSector)
  {
    if sectors < 2048 {
      assert sectors * perSector <= 2048 * perSector;
    }
  }
}
