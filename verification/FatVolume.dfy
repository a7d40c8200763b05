/** A FAT32 volume of kernel/filesystems/fat.c as the object its calls update in place: the table on disk,
    the window, the search hint, and the sectors of the data area. */
module FatVolumes {
  import opened Basics
  import opened Chains
  import opened FatCache

  // ----- the data area

  /** The data area with `block` written from sector `at`. */
  function PutBlock(data: seq<nat>, at: nat, block: seq<nat>): (r: seq<nat>)
    requires at + |block| <= |data|
    ensures |r| == |data|
    ensures forall k :: 0 <= k < |data| ==> r[k] == if at <= k < at + |block| then block[k - at] else data[k]
  {
    data[..at] + block + data[at + |block|..]
  }

  datatype Layout = Layout(first: nat, perCluster: nat, total: nat) {
    /** The first sector of a cluster (kernel/filesystems/fat.c:88). */
    function Sector(c: nat): nat {
      first + c * perCluster
    }

    predicate Holds(sectors: nat) {
      0 < perCluster && Sector(total) <= sectors
    }

    predicate InCluster(c: nat, sector: nat) {
      Sector(c) <= sector < Sector(c) + perCluster
    }
  }

  lemma {:induction false} ClustersApart(l: Layout, a: nat, b: nat)
    requires a < b
    ensures l.Sector(a) + l.perCluster <= l.Sector(b)
  {
    Successor(l, b - 1);
    if a + 1 < b {
      ClustersApart(l, a, b - 1);
    }
  }

  lemma Successor(l: Layout, c: nat)
    ensures l.Sector(c + 1) == l.Sector(c) + l.perCluster
  {
    assert (c + 1) * l.perCluster == c * l.perCluster + l.perCluster;
  }

  predicate Blocks(l: Layout, trail: seq<nat>, blocks: seq<seq<nat>>) {
    && |trail| <= |blocks|
    && (forall i :: 0 <= i < |trail| ==> trail[i] < l.total)
    && forall i :: 0 <= i < |blocks| ==> |blocks[i]| == l.perCluster
  }

  /** The data area after block `i` is written to cluster `trail[i]`, in order. */
  function WriteTrail(data: seq<nat>, l: Layout, trail: seq<nat>, blocks: seq<seq<nat>>): (r: seq<nat>)
    requires l.Holds(|data|) && Blocks(l, trail, blocks)
    ensures |r| == |data|
    decreases |trail|
  {
    if trail == [] then data
    else
      ClustersApart(l, trail[0], l.total);
      WriteTrail(PutBlock(data, l.Sector(trail[0]), blocks[0]), l, trail[1..], blocks[1..])
  }

  /** Sectors of clusters that are not written keep their contents. */
  lemma {:induction false} TrailSpares(data: seq<nat>, l: Layout, trail: seq<nat>, blocks: seq<seq<nat>>,
                                       c: nat, k: nat)
    requires l.Holds(|data|) && Blocks(l, trail, blocks) && k < |data|
    requires c !in trail && l.InCluster(c, k)
    ensures WriteTrail(data, l, trail, blocks)[k] == data[k]
    decreases |trail|
  {
    if trail != [] {
      ClustersApart(l, trail[0], l.total);
      if c < trail[0] {
        ClustersApart(l, c, trail[0]);
      } else {
        ClustersApart(l, trail[0], c);
      }
      TrailSpares(PutBlock(data, l.Sector(trail[0]), blocks[0]), l, trail[1..], blocks[1..], c, k);
    }
  }

  /** A cluster that is not written again holds its block at the end. */
  lemma {:induction false} TrailHolds(data: seq<nat>, l: Layout, trail: seq<nat>, blocks: seq<seq<nat>>,
                                      i: nat, k: nat)
    requires l.Holds(|data|) && Blocks(l, trail, blocks) && i < |trail| && trail[i] !in trail[i + 1..]
    requires k < l.perCluster && l.Sector(trail[i]) + k < |data|
    ensures WriteTrail(data, l, trail, blocks)[l.Sector(trail[i]) + k] == blocks[i][k]
    decreases |trail|
  {
    ClustersApart(l, trail[0], l.total);
    var data' := PutBlock(data, l.Sector(trail[0]), blocks[0]);
    if i == 0 {
      TrailSpares(data', l, trail[1..], blocks[1..], trail[0], l.Sector(trail[0]) + k);
    } else {
      TrailHolds(data', l, trail[1..], blocks[1..], i - 1, k);
    }
  }

  /** The cluster written last holds the last block. */
  lemma LastBlockStays(data: seq<nat>, l: Layout, trail: seq<nat>, blocks: seq<seq<nat>>, k: nat)
    requires l.Holds(|data|) && Blocks(l, trail, blocks) && trail != [] && k < |data|
    requires l.InCluster(trail[|trail| - 1], k)
    ensures 0 <= k - l.Sector(trail[|trail| - 1]) < |blocks[|trail| - 1]|
    ensures WriteTrail(data, l, trail, blocks)[k] == blocks[|trail| - 1][k - l.Sector(trail[|trail| - 1])]
  {
    TrailHolds(data, l, trail, blocks, |trail| - 1, k - l.Sector(trail[|trail| - 1]));
  }

  /** The clusters of the file's grown chain. */
  function Grown(s: State, ch: seq<nat>, n: nat): seq<nat> {
    ch + Fresh(s.fat, SearchStart(s.hint), Needed(|ch|, 0, n))
  }

  lemma GrownTrail(s: State, ch: seq<nat>, n: nat)
    requires Writable(s, ch, 0) && Enough(s, |ch|, 0, n)
    ensures WriteSteps(s, n).Some? && n <= |Grown(s, ch, n)| && Trail(s, n) == Grown(s, ch, n)[..n]
    ensures Distinct(Trail(s, n)) && forall i :: 0 <= i < n ==> Trail(s, n)[i] < |s.fat|
  {
    WriteGrows(s, ch, n);
    TrailInVolume(s, n);
  }

  /** Two turns or more have no free cluster to go to, and `c` is the hint that the vain searches answer with. */
  ghost predicate VainlyHits(s: State, ch: seq<nat>, n: nat, c: nat) {
    2 <= Needed(|ch|, 0, n) && FreeFrom(s.fat, SearchStart(s.hint)) == {} && s.hint == c
  }

  lemma FreeOutsideMeansEnough(s: State, ch: seq<nat>, n: nat, c: nat)
    requires c !in Grown(s, ch, n) && c in FreeFrom(s.fat, SearchStart(s.hint))
    ensures Enough(s, |ch|, 0, n)
  {
    FreshAreFirst(s.fat, SearchStart(s.hint), Needed(|ch|, 0, n), c);
    FreshAreEnough(s.fat, SearchStart(s.hint), Needed(|ch|, 0, n));
  }

  /** Exactly which clusters outside the grown chain a write puts blocks in: none but the hint, when it has to
      answer for two clusters or more; the last block goes there. */
  lemma TrailOutsideGrown(s: State, ch: seq<nat>, n: nat, c: nat)
    requires Writable(s, ch, 0) && WriteSteps(s, n).Some? && c !in Grown(s, ch, n)
    ensures !VainlyHits(s, ch, n, c) ==> c !in Trail(s, n)
    ensures VainlyHits(s, ch, n, c) && 0 < c ==> c in Trail(s, n) && Trail(s, n)[n - 1] == c
  {
    TrailInVolume(s, n);
    if c in FreeFrom(s.fat, SearchStart(s.hint)) {
      FreeOutsideMeansEnough(s, ch, n, c);
      GrownTrail(s, ch, n);
    } else if n != 0 {
      TrailLast(s, n);
      if VainlyHits(s, ch, n, c) {
        if 0 < c {
          WriteEndsAtHint(s, ch, 0, n - 1);
        }
      } else if c < |s.fat| {
        WriteAvoids(s, ch, 0, n - 1, c);
      }
    }
  }

  /** What a write is given: a data area that holds the volume, and blocks of whole clusters. */
  predicate BlocksFit(l: Layout, fat: seq<nat>, n: nat, data: seq<nat>, blocks: seq<seq<nat>>) {
    && l.total == |fat| && l.Holds(|data|)
    && n <= |blocks| && forall i :: 0 <= i < |blocks| ==> |blocks[i]| == l.perCluster
  }

  /** Contents, outside the file: a write leaves every sector of every cluster that is not in the file's grown
      chain, except those of the hint when it has two clusters or more to add and none is free; they hold the
      last block then. */
  lemma WriteSparesSectors(s: State, ch: seq<nat>, n: nat, data: seq<nat>, l: Layout, blocks: seq<seq<nat>>,
                           c: nat, k: nat)
    requires Writable(s, ch, 0) && WriteSteps(s, n).Some? && BlocksFit(l, s.fat, n, data, blocks)
    requires c !in Grown(s, ch, n) && k < |data| && l.InCluster(c, k)
    ensures Blocks(l, Trail(s, n), blocks)
    ensures !VainlyHits(s, ch, n, c) ==> WriteTrail(data, l, Trail(s, n), blocks)[k] == data[k]
    ensures VainlyHits(s, ch, n, c) && 0 < c ==>
      WriteTrail(data, l, Trail(s, n), blocks)[k] == blocks[n - 1][k - l.Sector(c)]
  {
    TrailInVolume(s, n);
    TrailOutsideGrown(s, ch, n, c);
    if !VainlyHits(s, ch, n, c) {
      TrailSpares(data, l, Trail(s, n), blocks, c, k);
    } else if 0 < c {
      LastBlockStays(data, l, Trail(s, n), blocks, k);
    }
  }

  lemma DistinctTrailHolds(data: seq<nat>, l: Layout, trail: seq<nat>, blocks: seq<seq<nat>>, i: nat, k: nat)
    requires l.Holds(|data|) && Blocks(l, trail, blocks) && Distinct(trail) && i < |trail| && k < l.perCluster
    ensures var at := l.Sector(trail[i]) + k;
      at < |data| && WriteTrail(data, l, trail, blocks)[at] == blocks[i][k]
  {
    ClustersApart(l, trail[i], l.total);
    TrailHolds(data, l, trail, blocks, i, k);
  }

  /** Contents, inside the file: block `i` ends up in place `i` of the grown chain. */
  lemma WritePutsBlocks(s: State, ch: seq<nat>, n: nat, data: seq<nat>, l: Layout, blocks: seq<seq<nat>>,
                        i: nat, k: nat)
    requires Writable(s, ch, 0) && Enough(s, |ch|, 0, n) && BlocksFit(l, s.fat, n, data, blocks)
    requires i < n && k < l.perCluster
    ensures WriteSteps(s, n).Some? && Blocks(l, Trail(s, n), blocks) && n <= |Grown(s, ch, n)|
    ensures var at := l.Sector(Grown(s, ch, n)[i]) + k;
      at < |data| && WriteTrail(data, l, Trail(s, n), blocks)[at] == blocks[i][k]
  {
    GrownTrail(s, ch, n);
    assert Trail(s, n)[i] == Grown(s, ch, n)[i];
    DistinctTrailHolds(data, l, Trail(s, n), blocks, i, k);
  }

  // ----- the file as a whole

  /** A write of `size` bytes in blocks of `bytes` (kernel/filesystems/fat.c:89). */
  function Turns(size: nat, bytes: nat): nat
    requires 0 < bytes
  {
    size / bytes + 1
  }

  /** It takes one block more than fit below `size`. */
  lemma TurnsCover(size: nat, bytes: nat)
    requires 0 < bytes
    ensures (Turns(size, bytes) - 1) * bytes <= size < Turns(size, bytes) * bytes
  {
    assert size == size / bytes * bytes + size % bytes;
  }

  lemma TurnsExact(size: nat, bytes: nat, i: nat)
    requires 0 < bytes
    ensures i < Turns(size, bytes) <==> i * bytes <= size
  {
    TurnsCover(size, bytes);
    if i < Turns(size, bytes) {
      Monotone(i, Turns(size, bytes) - 1, bytes);
    } else {
      Monotone(Turns(size, bytes), i, bytes);
    }
  }

  lemma {:induction false} Monotone(a: nat, b: nat, c: nat)
    requires a <= b
    ensures a * c <= b * c
  {
    assert b * c == a * c + (b - a) * c;
  }

  predicate BlockAt(data: seq<nat>, at: nat, block: seq<nat>) {
    at + |block| <= |data| && data[at..at + |block|] == block
  }

  /** Place `i` of the file exists and its sectors hold block `i`. */
  ghost predicate PlaceHolds(data: seq<nat>, l: Layout, file: seq<nat>, blocks: seq<seq<nat>>, i: nat) {
    i < |file| && i < |blocks| && BlockAt(data, l.first + file[i] * l.perCluster, blocks[i])
  }

  /** The file that starts at `start` holds the blocks of every byte below `size`, and the one that `size` lies in. */
  ghost predicate FileHolds(fat: seq<nat>, data: seq<nat>, l: Layout, start: nat, size: nat, bytes: nat,
                            blocks: seq<seq<nat>>)
  {
    exists file :: IsChain(fat, file) && file[0] == start
      && forall i: nat :: i * bytes <= size ==> PlaceHolds(data, l, file, blocks, i)
  }

  lemma GrownHolds(s: State, ch: seq<nat>, n: nat, data: seq<nat>, l: Layout, blocks: seq<seq<nat>>, i: nat)
    requires Writable(s, ch, 0) && Enough(s, |ch|, 0, n) && BlocksFit(l, s.fat, n, data, blocks) && i < n
    ensures WriteSteps(s, n).Some? && Blocks(l, Trail(s, n), blocks)
    ensures PlaceHolds(WriteTrail(data, l, Trail(s, n), blocks), l, Grown(s, ch, n), blocks, i)
  {
    GrownTrail(s, ch, n);
    assert Trail(s, n)[i] == Grown(s, ch, n)[i];
    ClustersApart(l, Trail(s, n)[i], l.total);
    var at, data' := l.first + Trail(s, n)[i] * l.perCluster, WriteTrail(data, l, Trail(s, n), blocks);
    assert l.Sector(Trail(s, n)[i]) == at;
    forall k | 0 <= k < l.perCluster
      ensures at + k < |data'| && data'[at + k] == blocks[i][k]
    {
      WritePutsBlocks(s, ch, n, data, l, blocks, i, k);
    }
    assert data'[at..at + |blocks[i]|] == blocks[i];
  }

  /** A complete write to a file, with enough free clusters, leaves the whole file written. */
  lemma FileIsWritten(s: State, ch: seq<nat>, size: nat, bytes: nat, data: seq<nat>, l: Layout, blocks: seq<seq<nat>>)
    requires Writable(s, ch, 0) && 0 < bytes && Enough(s, |ch|, 0, Turns(size, bytes))
    requires BlocksFit(l, s.fat, Turns(size, bytes), data, blocks)
    ensures var n := Turns(size, bytes);
      && WriteSteps(s, n).Some? && Blocks(l, Trail(s, n), blocks)
      && FileHolds(WriteSteps(s, n).value.fat, WriteTrail(data, l, Trail(s, n), blocks), l, s.cluster, size, bytes,
                   blocks)
  {
    var n := Turns(size, bytes);
    WriteGrows(s, ch, n);
    TrailInVolume(s, n);
    var data', file := WriteTrail(data, l, Trail(s, n), blocks), Grown(s, ch, n);
    forall i: nat | i * bytes <= size
      ensures PlaceHolds(data', l, file, blocks, i)
    {
      TurnsExact(size, bytes, i);
      GrownHolds(s, ch, n, data, l, blocks, i);
    }
    assert IsChain(WriteSteps(s, n).value.fat, file) && file[0] == s.cluster;
  }

  /** If `n` turns from `s` found a file there and enough free clusters, the whole file is written. */
  ghost predicate WholeFile(s: State, n: nat, fat: seq<nat>, data: seq<nat>, l: Layout, size: nat, bytes: nat,
                            blocks: seq<seq<nat>>)
  {
    forall ch :: Writable(s, ch, 0) && Enough(s, |ch|, 0, n) ==> FileHolds(fat, data, l, s.cluster, size, bytes, blocks)
  }

  lemma CompleteWriteHolds(s: State, size: nat, bytes: nat, data: seq<nat>, l: Layout, blocks: seq<seq<nat>>)
    requires 0 < bytes && WriteSteps(s, Turns(size, bytes)).Some?
    requires BlocksFit(l, s.fat, Turns(size, bytes), data, blocks) && Blocks(l, Trail(s, Turns(size, bytes)), blocks)
    ensures var n := Turns(size, bytes);
      WholeFile(s, n, WriteSteps(s, n).value.fat, WriteTrail(data, l, Trail(s, n), blocks), l, size, bytes, blocks)
  {
    var n := Turns(size, bytes);
    forall ch | Writable(s, ch, 0) && Enough(s, |ch|, 0, n)
      ensures FileHolds(WriteSteps(s, n).value.fat, WriteTrail(data, l, Trail(s, n), blocks), l, s.cluster, size, bytes,
                        blocks)
    {
      FileIsWritten(s, ch, size, bytes, data, l, blocks);
    }
  }

  lemma {:induction false} TrailInVolume(s: State, n: nat)
    requires WriteSteps(s, n).Some?
    ensures forall i :: 0 <= i < n ==> Trail(s, n)[i] < |s.fat|
    decreases n
  {
    if n != 0 {
      TrailInVolume(WriteStep(s).value, n - 1);
    }
  }

  lemma ClusterIsNotEmpty(perSector: nat, perCluster: nat)
    requires 0 < perSector && 0 < perCluster
    ensures 0 < 4 * perSector * perCluster
  {
    assert 4 * perSector * perCluster == perSector * (4 * perCluster);
    Monotone(1, perSector, 4 * perCluster);
  }

  // ----- the volume

  class FatVolume {
    const disk: array<nat>       // the table on disk, entry by entry
    const cache: array<nat>      // fat_cache
    const data: array<nat>       // the data area, sector by sector
    const perSector: nat         // sector_size_bytes / 4
    const layout: Layout
    var start: nat               // cached_clusters_start
    var hint: nat                // last_free_cluster

    ghost function View(): Cache
      reads this, disk, cache
    {
      Cache(disk[..], cache[..], start, perSector, layout.total)
    }

    ghost predicate Valid()
      reads this, disk, cache
    {
      && View().Ok()
      && disk != cache && disk != data && cache != data
      && layout.Holds(data.Length)
    }

    ghost function Flat(): seq<nat>
      requires View().Ok()
      reads this, disk, cache
    {
      View().Flat()
    }

    /** A volume whose window has been loaded from the first cluster on, as a first call does. */
    constructor (disk: array<nat>, cache: array<nat>, data: array<nat>, perSector: nat, layout: Layout, hint: nat)
      requires 0 < perSector <= cache.Length && 0 < layout.total && layout.total + cache.Length <= disk.Length
      requires disk != cache && disk != data && cache != data && layout.Holds(data.Length)
      modifies cache
      ensures Valid() && View().Clean() && Flat() == disk[..layout.total]
      ensures start == 0 && this.perSector == perSector && this.hint == hint && this.layout == layout
      ensures this.disk == disk && this.cache == cache && this.data == data
    {
      this.disk, this.cache, this.data := disk, cache, data;
      this.perSector, this.layout := perSector, layout;
      this.start, this.hint := 0, hint;
      new;
      CacheFat(0);
    }

    /** The entry where the sector of cluster `c` starts. */
    method SectorBase(c: nat) returns (b: nat)
      requires 0 < perSector
      ensures b == RoundDown(c, perSector)
    {
      var sector := c / perSector;
      assert sector * perSector <= c < sector * perSector + perSector;
      RoundDownIs(c, perSector, sector);
      b := sector * perSector;
    }

    /** The drive's read: as many entries as the window holds, from entry `b` on. */
    method ReadDrive(b: nat)
      requires b + cache.Length <= disk.Length && disk != cache
      modifies cache
      ensures cache[..] == disk[b..b + cache.Length]
    {
      for i := 0 to cache.Length
        invariant forall j :: 0 <= j < i ==> cache[j] == disk[b + j]
      {
        cache[i] := disk[b + i];
      }
    }

    /** The drive's write. */
    method WriteDrive(b: nat)
      requires b + cache.Length <= disk.Length && disk != cache
      modifies disk
      ensures disk[..] == old(disk[..b]) + cache[..] + old(disk[b + cache.Length..])
    {
      ghost var was := disk[..];
      for i := 0 to cache.Length
        invariant forall j :: 0 <= j < disk.Length ==> disk[j] == if b <= j < b + i then cache[j - b] else was[j]
      {
        disk[b + i] := cache[i];
      }
    }

    /** `cache_fat32`. */
    method CacheFat(c: nat)
      requires Valid() && c < layout.total
      modifies this`start, cache
      ensures Valid() && View() == Load(old(View()), c)
      ensures View().Clean() && Flat() == disk[..layout.total]
    {
      LoadShowsDisk(View(), c);
      var b := SectorBase(c);
      start := c;
      ReadDrive(b);
    }

    /** `write_cache`. */
    method WriteCache()
      requires Valid()
      modifies disk
      ensures Valid() && View() == Store(old(View()))
    {
      StoreKeepsFlat(View());
      var b := SectorBase(start);
      WriteDrive(b);
    }

    /** `get_next_cluster32`. */
    method GetNextCluster(c: nat) returns (next: nat)
      requires Valid() && c < layout.total
      modifies this`start, cache
      ensures Valid() && (View(), next) == Get(old(View()), c)
    {
      var b := SectorBase(start);
      if c < b || c >= b + cache.Length {
        CacheFat(c);
        b := SectorBase(c);
      }
      next := cache[c - b];
    }

    /** The window is brought to cluster `c`; `b` is the entry it begins with. */
    method FetchWindow(c: nat) returns (b: nat)
      requires Valid() && c < layout.total
      modifies this`start, cache, disk
      ensures Valid() && View() == Fetch(old(View()), c) && b == View().Base() && View().InWindow(c)
    {
      FetchKeepsFlat(View(), c);
      b := SectorBase(start);
      if c < b || c >= b + cache.Length {
        StoreKeepsFlat(View());
        WriteCache();
        CacheFat(c);
        b := SectorBase(c);
      }
    }

    /** `set_next_cluster32`. */
    method SetNextCluster(c: nat, next: nat)
      requires Valid() && c < layout.total
      modifies this`start, cache, disk
      ensures Valid() && View() == Set(old(View()), c, next)
    {
      SetRefines(View(), c, next);
      var b := FetchWindow(c);
      PutEntry(b, c, if c == next then NONE else next);
    }

    method PutEntry(b: nat, c: nat, v: nat)
      requires View().Ok() && b == View().Base() && View().InWindow(c) && disk != cache
      modifies cache
      ensures View() == old(View()).(window := old(View()).window[c - b := v])
    {
      ghost var k := View();
      cache[c - b] := v;
      assert cache[..] == k.window[c - b := v];
    }

    /** A safe call of `get_next_cluster32`: it reads the flat table and leaves it. */
    method SafeGet(c: nat, ghost rest: seq<FatOp>) returns (next: nat)
      requires Valid() && SafeRun(View(), [GetOp(c)] + rest)
      modifies this`start, cache
      ensures Valid() && SafeRun(View(), rest)
      ensures c < layout.total && Flat() == old(Flat()) && next == Flat()[c]
    {
      SafeFirst(View(), GetOp(c), rest);
      next := GetNextCluster(c);
    }

    /** The loop of `fat32_find_free_cluster`. */
    method SearchFrom(from: nat, ghost rest: seq<FatOp>) returns (r: Option<nat>)
      requires Valid() && SafeRun(View(), SearchOps(Flat(), from) + rest)
      modifies this`start, cache
      ensures Valid() && SafeRun(View(), rest)
      ensures Flat() == old(Flat()) && r == FirstFree(Flat(), from)
    {
      ghost var fat, ops := Flat(), SearchOps(Flat(), from) + rest;
      var i := from;
      while i < layout.total
        invariant Valid() && Flat() == fat
        invariant ops == SearchOps(fat, i) + rest && SafeRun(View(), ops)
        invariant FirstFree(fat, from) == FirstFree(fat, i)
      {
        SearchUnfold(fat, i, rest);
        ops := if fat[i] == 0 then rest else SearchOps(fat, i + 1) + rest;
        var next := SafeGet(i, ops);
        if next == 0 {
          return Some(i);
        }
        i := i + 1;
      }
      SearchUnfold(fat, i, rest);
      return None;
    }

    /** `fat32_find_free_cluster`. */
    method FindFreeCluster(ghost rest: seq<FatOp>) returns (c: nat)
      requires Valid() && layout.total <= END
      requires SafeRun(View(), SearchOps(Flat(), SearchStart(hint)) + rest)
      modifies this`start, this`hint, cache
      ensures Valid() && SafeRun(View(), rest)
      ensures Flat() == old(Flat()) && c == hint == FindFree(Flat(), old(hint))
      ensures Answers(Flat(), old(hint), c)
    {
      FindFreeAnswers(Flat(), hint);
      var found := SearchFrom(if hint == NONE then 0 else hint, rest);
      c := if found.Some? then found.value else hint;
      hint := c;
    }

    /** The bytes of a cluster. */
    function ClusterBytes(): (b: nat)
      requires 0 < perSector && 0 < layout.perCluster
      ensures 0 < b
    {
      ClusterIsNotEmpty(perSector, layout.perCluster);
      4 * perSector * layout.perCluster
    }

    function WriteCount(size: nat): nat
      requires 0 < perSector && 0 < layout.perCluster
    {
      Turns(size, ClusterBytes())
    }

    /** One block to the sectors of a cluster. */
    method WriteBlock(c: nat, block: seq<nat>)
      requires layout.Holds(data.Length) && c < layout.total && |block| == layout.perCluster
      modifies data
      ensures layout.Sector(c) + |block| <= data.Length
      ensures data[..] == PutBlock(old(data[..]), layout.Sector(c), block)
    {
      ClustersApart(layout, c, layout.total);
      ghost var was := data[..];
      var at := layout.Sector(c);
      for k := 0 to |block|
        invariant forall j :: 0 <= j < data.Length ==> data[j] == if at <= j < at + k then block[j - at] else was[j]
      {
        data[at + k] := block[k];
      }
    }

    /** The turn's step from cluster `c` to the next one, linked in if the chain ends. */
    method NextOrLink(c: nat, ghost rest: seq<FatOp>) returns (next: nat)
      requires Valid() && layout.total <= END && WriteStep(State(Flat(), hint, c)).Some?
      requires SafeRun(View(), TurnOps(State(Flat(), hint, c)) + rest)
      modifies this`start, this`hint, cache, disk
      ensures Valid() && SafeRun(View(), rest)
      ensures WriteStep(State(old(Flat()), old(hint), c)) == Some(State(Flat(), hint, next))
    {
      ghost var fat, f := Flat(), FindFree(Flat(), hint);
      ghost var links := [SetOp(c, f), SetOp(f, NONE)];
      ghost var more := if fat[c] < END then rest else SearchOps(fat, SearchStart(hint)) + (links + rest);
      assert TurnOps(State(fat, hint, c)) + rest == [GetOp(c)] + more;
      next := SafeGet(c, more);
      if next >= END {
        next := FindFreeCluster(links + rest);
        LinkIn(c, next, rest);
      }
    }

    /** The two sets that append cluster `f` to the chain ending in `c`. */
    method LinkIn(c: nat, f: nat, ghost rest: seq<FatOp>)
      requires Valid() && SafeRun(View(), [SetOp(c, f), SetOp(f, NONE)] + rest)
      modifies this`start, cache, disk
      ensures Valid() && SafeRun(View(), rest) && c < layout.total && f < layout.total
      ensures Flat() == SetNext(SetNext(old(Flat()), c, f), f, NONE)
    {
      assert [SetOp(c, f), SetOp(f, NONE)] + rest == [SetOp(c, f)] + ([SetOp(f, NONE)] + rest);
      SafeFirst(View(), SetOp(c, f), [SetOp(f, NONE)] + rest);
      SetNextCluster(c, f);
      SafeFirst(View(), SetOp(f, NONE), rest);
      SetNextCluster(f, NONE);
    }

    /** `fat32_write`: `fails` is the turn in which the drive refuses the block, if any.  Every turn before it
        writes its block to the current cluster and goes on to the next one.  The write succeeds when the drive
        takes the blocks of all bytes, and then the whole file is written. */
    method WriteFile(cluster0: nat, size: nat, blocks: seq<seq<nat>>, fails: nat) returns (r: int)
      requires Valid() && layout.total <= END
      requires WriteCount(size) <= |blocks| && forall i :: 0 <= i < |blocks| ==> |blocks[i]| == layout.perCluster
      requires WriteSteps(State(Flat(), hint, cluster0), Least(fails, WriteCount(size))).Some?
      requires SafeRun(View(), WriteOps(State(Flat(), hint, cluster0), Least(fails, WriteCount(size))))
      modifies this`start, this`hint, cache, disk, data
      ensures Valid() && r == if fails < WriteCount(size) then -1 else 0
      ensures var s, n := State(old(Flat()), old(hint), cluster0), Least(fails, WriteCount(size));
        && Ready(s, n, old(data[..]), layout, blocks)
        && (Flat(), hint, data[..]) == (WriteSteps(s, n).value.fat, WriteSteps(s, n).value.hint,
                                        WriteTrail(old(data[..]), layout, Trail(s, n), blocks))
      ensures r == 0 <==> size < fails * (4 * perSector * layout.perCluster)
      ensures r == 0 ==>
        WholeFile(State(old(Flat()), old(hint), cluster0), WriteCount(size), Flat(), data[..], layout, size,
                  4 * perSector * layout.perCluster, blocks)
    {
      ghost var s, n := State(Flat(), hint, cluster0), Least(fails, WriteCount(size));
      TrailInVolume(s, n);
      ghost var ds := Datas(States(s, n), data[..], layout, blocks);
      WriteIsPlanned(s, n, data[..], layout, blocks);
      ghost var was := data[..];
      TurnsExact(size, ClusterBytes(), fails);
      r := WriteTurns(cluster0, WriteCount(size), blocks, fails, States(s, n), ds);
      if r == 0 {
        CompleteWriteHolds(s, size, ClusterBytes(), was, layout, blocks);
      }
    }

    /** The loop of `fat32_write`, which passes the states and data areas of a plan. */
    method WriteTurns(cluster0: nat, writes: nat, blocks: seq<seq<nat>>, fails: nat,
                      ghost ss: seq<State>, ghost ds: seq<seq<nat>>) returns (r: int)
      requires Valid() && layout.total <= END && |ss| == Least(fails, writes) + 1
      requires Plan(ss, ds, layout, blocks) && ss[0] == State(Flat(), hint, cluster0) && ds[0] == data[..]
      requires SafeRun(View(), TurnsOps(ss, 0))
      modifies this`start, this`hint, cache, disk, data
      ensures Valid() && r == if fails < writes then -1 else 0
      ensures Flat() == ss[|ss| - 1].fat && hint == ss[|ss| - 1].hint && data[..] == ds[|ss| - 1]
    {
      var cluster := cluster0;
      var i := 0;
      while i < writes
        invariant i < |ss| && Valid() && State(Flat(), hint, cluster) == ss[i] && data[..] == ds[i]
        invariant SafeRun(View(), TurnsOps(ss, i))
        decreases writes - i
      {
        if i == fails {
          return -1;
        }
        assert PlanStep(ss, ds, layout, blocks, i);
        cluster := Turn(cluster, blocks[i], TurnsOps(ss, i + 1));
        i := i + 1;
      }
      return 0;
    }

    /** One turn of the loop: the block, then the step. */
    method Turn(c: nat, block: seq<nat>, ghost rest: seq<FatOp>) returns (next: nat)
      requires Valid() && layout.total <= END && WriteStep(State(Flat(), hint, c)).Some?
      requires SafeRun(View(), TurnOps(State(Flat(), hint, c)) + rest)
      requires |block| == layout.perCluster
      modifies this`start, this`hint, cache, disk, data
      ensures Valid() && SafeRun(View(), rest)
      ensures WriteStep(State(old(Flat()), old(hint), c)) == Some(State(Flat(), hint, next))
      ensures layout.Sector(c) + |block| <= data.Length
      ensures data[..] == PutBlock(old(data[..]), layout.Sector(c), block)
    {
      ghost var k := View();
      WriteBlock(c, block);
      assert View() == k;
      ghost var now := data[..];
      next := NextOrLink(c, rest);
      assert data[..] == now;
    }
  }

  /** Turn `i` leads from each state and data area to the next. */
  ghost predicate PlanStep(ss: seq<State>, ds: seq<seq<nat>>, l: Layout, blocks: seq<seq<nat>>, i: nat)
    requires |ds| == |ss| && i + 1 < |ss| <= |blocks| + 1
  {
    && WriteStep(ss[i]) == Some(ss[i + 1]) && |blocks[i]| == l.perCluster
    && l.Sector(ss[i].cluster) + |blocks[i]| <= |ds[i]|
    && ds[i + 1] == PutBlock(ds[i], l.Sector(ss[i].cluster), blocks[i])
  }

  ghost predicate Plan(ss: seq<State>, ds: seq<seq<nat>>, l: Layout, blocks: seq<seq<nat>>) {
    0 < |ss| == |ds| <= |blocks| + 1 && forall i :: 0 <= i < |ss| - 1 ==> PlanStep(ss, ds, l, blocks, i)
  }

  /** The data areas that the turns pass. */
  ghost function Datas(ss: seq<State>, data: seq<nat>, l: Layout, blocks: seq<seq<nat>>): (ds: seq<seq<nat>>)
    ensures ss != [] ==> |ds| == |ss| && ds[0] == data
    decreases |ss|
  {
    if |ss| <= 1 || blocks == [] || l.Sector(ss[0].cluster) + |blocks[0]| > |data| then seq(|ss|, _ => data)
    else [data] + Datas(ss[1..], PutBlock(data, l.Sector(ss[0].cluster), blocks[0]), l, blocks[1..])
  }

  lemma PlanGrows(ss: seq<State>, ds: seq<seq<nat>>, l: Layout, blocks: seq<seq<nat>>)
    requires 1 < |ss| == |ds| <= |blocks| + 1 && PlanStep(ss, ds, l, blocks, 0)
    requires Plan(ss[1..], ds[1..], l, blocks[1..])
    ensures Plan(ss, ds, l, blocks)
  {
    forall i | 0 <= i < |ss| - 1
      ensures PlanStep(ss, ds, l, blocks, i)
    {
      if 0 < i {
        assert PlanStep(ss[1..], ds[1..], l, blocks[1..], i - 1);
      }
    }
  }

  /** The states and data areas of a write are a plan that ends in its outcome. */
  lemma {:induction false} WriteIsPlanned(s: State, n: nat, data: seq<nat>, l: Layout, blocks: seq<seq<nat>>)
    requires Ready(s, n, data, l, blocks)
    ensures var ds := Datas(States(s, n), data, l, blocks);
      Plan(States(s, n), ds, l, blocks) && ds[n] == Outcome(s, n, data, l, blocks).1
    decreases n
  {
    if n != 0 {
      OutcomeStep(s, n, data, l, blocks);
      var s1, data1 := WriteStep(s).value, PutBlock(data, l.Sector(s.cluster), blocks[0]);
      WriteIsPlanned(s1, n - 1, data1, l, blocks[1..]);
      var ss := States(s, n);
      assert ss[1..] == States(s1, n - 1);
      var ds := Datas(ss, data, l, blocks);
      assert ds[1..] == Datas(ss[1..], data1, l, blocks[1..]);
      PlanGrows(ss, ds, l, blocks);
    }
  }

  lemma SearchUnfold(fat: seq<nat>, i: nat, rest: seq<FatOp>)
    ensures i < |fat| ==>
      SearchOps(fat, i) + rest == [GetOp(i)] + if fat[i] == 0 then rest else SearchOps(fat, i + 1) + rest
    ensures |fat| <= i ==> SearchOps(fat, i) + rest == rest
  {
    if i < |fat| {
      assert fat[i] == 0 ==> SearchOps(fat, i) == [GetOp(i)];
      assert fat[i] != 0 ==> [GetOp(i)] + SearchOps(fat, i + 1) + rest == [GetOp(i)] + (SearchOps(fat, i + 1) + rest);
    }
  }

  lemma InVolumeConcat(a: seq<FatOp>, b: seq<FatOp>, total: nat)
    requires InVolume(a, total) && InVolume(b, total)
    ensures InVolume(a + b, total)
  {
  }

  lemma TurnOpsInVolume(s: State)
    requires WriteStep(s).Some?
    ensures InVolume(TurnOps(s), |s.fat|)
  {
    if s.fat[s.cluster] >= END {
      var f := FindFree(s.fat, s.hint);
      SearchOpsInVolume(s.fat, SearchStart(s.hint));
      InVolumeConcat(SearchOps(s.fat, SearchStart(s.hint)), [SetOp(s.cluster, f), SetOp(f, NONE)], |s.fat|);
    }
  }

  /** State `j` takes a turn to the next one, in a volume of `total` clusters. */
  ghost predicate TurnIn(ss: seq<State>, j: nat, total: nat)
    requires j + 1 < |ss|
  {
    WriteStep(ss[j]) == Some(ss[j + 1]) && |ss[j].fat| == total
  }

  /** The calls of a write stay inside the volume. */
  lemma {:induction false} TurnsOpsInVolume(ss: seq<State>, i: nat, total: nat)
    requires forall j :: i <= j < |ss| - 1 ==> TurnIn(ss, j, total)
    ensures InVolume(TurnsOps(ss, i), total)
    decreases |ss| - i
  {
    if i + 1 < |ss| {
      assert TurnIn(ss, i, total);
      TurnOpsInVolume(ss[i]);
      TurnsOpsInVolume(ss, i + 1, total);
      InVolumeConcat(TurnOps(ss[i]), TurnsOps(ss, i + 1), total);
    }
  }

  lemma {:induction false} StatesStep(s: State, n: nat, j: nat)
    requires WriteSteps(s, n).Some? && j < n
    ensures TurnIn(States(s, n), j, |s.fat|)
    decreases n
  {
    if 0 < j {
      StatesStep(WriteStep(s).value, n - 1, j - 1);
    }
  }

  lemma {:induction false} SearchOpsInVolume(fat: seq<nat>, i: nat)
    ensures InVolume(SearchOps(fat, i), |fat|)
    decreases |fat| - i
  {
    if i < |fat| && fat[i] != 0 {
      SearchOpsInVolume(fat, i + 1);
    }
  }

  /** A window over the whole table makes every write safe. */
  lemma CoveringWritesAreSafe(k: Cache, hint: nat, c: nat, n: nat)
    requires k.Ok() && Covers(k) && WriteSteps(State(k.Flat(), hint, c), n).Some?
    ensures SafeRun(k, WriteOps(State(k.Flat(), hint, c), n))
  {
    var s := State(k.Flat(), hint, c);
    forall j | 0 <= j < n
      ensures TurnIn(States(s, n), j, k.total)
    {
      StatesStep(s, n, j);
    }
    TurnsOpsInVolume(States(s, n), 0, k.total);
    CoveringRunsAgree(k, WriteOps(State(k.Flat(), hint, c), n));
  }

  lemma BlocksTail(l: Layout, trail: seq<nat>, blocks: seq<seq<nat>>)
    requires Blocks(l, trail, blocks) && trail != []
    ensures Blocks(l, trail[1..], blocks[1..])
  {
  }

  ghost predicate Ready(s: State, n: nat, data: seq<nat>, l: Layout, blocks: seq<seq<nat>>) {
    l.Holds(|data|) && WriteSteps(s, n).Some? && Blocks(l, Trail(s, n), blocks)
  }

  /** What `n` turns leave: the table with its hint, and the data area. */
  ghost function Outcome(s: State, n: nat, data: seq<nat>, l: Layout, blocks: seq<seq<nat>>): (State, seq<nat>)
    requires Ready(s, n, data, l, blocks)
  {
    (WriteSteps(s, n).value, WriteTrail(data, l, Trail(s, n), blocks))
  }

  lemma OutcomeStep(s: State, n: nat, data: seq<nat>, l: Layout, blocks: seq<seq<nat>>)
    requires 1 <= n && Ready(s, n, data, l, blocks)
    ensures WriteStep(s).Some? && 0 < |blocks| && |blocks[0]| == l.perCluster
    ensures l.Sector(s.cluster) + |blocks[0]| <= |data|
    ensures var s1, data1 := WriteStep(s).value, PutBlock(data, l.Sector(s.cluster), blocks[0]);
      && Ready(s1, n - 1, data1, l, blocks[1..])
      && Outcome(s, n, data, l, blocks) == Outcome(s1, n - 1, data1, l, blocks[1..])
  {
    var s1 := WriteStep(s).value;
    StepsUnfold(s, s1, n);
    assert Trail(s, n)[1..] == Trail(s1, n - 1);
    assert Trail(s, n)[0] == s.cluster;
    ClustersApart(l, s.cluster, l.total);
    BlocksTail(l, Trail(s, n), blocks);
  }
}
