/** The chain writer of kernel/filesystems/fat.c over a flat file allocation table.

    An entry is 0 when its cluster is free, the next cluster of the file, or an end mark.  The writer
    takes any entry at or above 0x0fffffff for an end (line 97); `SpecChains` has the specification's view. */
module Chains {
  import opened Basics

  const END := 0x0fff_ffff
  const NONE := 0xffff_ffff

  // ----- chains

  /** `ch` is a whole chain: each entry names the next cluster and the last one is an end mark, at or above
      `mark`.  Cluster 0 is never part of a file. */
  ghost predicate ChainTo(fat: seq<nat>, ch: seq<nat>, mark: nat) {
    && 0 < |ch| && |fat| <= mark
    && (forall i :: 0 <= i < |ch| ==> 0 < ch[i] < |fat|)
    && (forall i :: 0 <= i < |ch| - 1 ==> fat[ch[i]] == ch[i + 1])
    && fat[ch[|ch| - 1]] >= mark
  }

  /** A chain as the writer sees it. */
  ghost predicate IsChain(fat: seq<nat>, ch: seq<nat>) {
    ChainTo(fat, ch, END)
  }

  ghost predicate Disjoint(a: seq<nat>, b: seq<nat>) {
    forall i, j :: 0 <= i < |a| && 0 <= j < |b| ==> a[i] != b[j]
  }

  ghost predicate Distinct(s: seq<nat>) {
    forall i, j :: 0 <= i < j < |s| ==> s[i] != s[j]
  }

  lemma {:induction false} ChainIsUnique(fat: seq<nat>, a: seq<nat>, b: seq<nat>, mark: nat)
    requires ChainTo(fat, a, mark) && ChainTo(fat, b, mark) && a[0] == b[0]
    ensures a == b
  {
    EndsHere(fat, a, mark);
    EndsHere(fat, b, mark);
    if 1 < |a| {
      assert fat[a[0]] == a[1] && fat[b[0]] == b[1];
      ChainIsUnique(fat, a[1..], b[1..], mark);
      assert a == [a[0]] + a[1..] && b == [b[0]] + b[1..];
    }
  }

  lemma EndsHere(fat: seq<nat>, ch: seq<nat>, mark: nat)
    requires ChainTo(fat, ch, mark)
    ensures fat[ch[0]] >= mark <==> |ch| == 1
  {
    assert 1 < |ch| ==> fat[ch[0]] == ch[1];
  }

  lemma ChainTail(fat: seq<nat>, ch: seq<nat>, mark: nat, i: nat)
    requires ChainTo(fat, ch, mark) && i < |ch|
    ensures ChainTo(fat, ch[i..], mark)
  {
  }

  /** A chain that ends never meets itself. */
  lemma ChainsAreAcyclic(fat: seq<nat>, ch: seq<nat>, mark: nat)
    requires ChainTo(fat, ch, mark)
    ensures Distinct(ch)
  {
    forall i, j | 0 <= i < j < |ch|
      ensures ch[i] != ch[j]
    {
      if ch[i] == ch[j] {
        ChainTail(fat, ch, mark, i);
        ChainTail(fat, ch, mark, j);
        ChainIsUnique(fat, ch[i..], ch[j..], mark);
        assert false;
      }
    }
  }

  // ----- the operations of the source

  /** `set_next_cluster32`: linking a cluster to itself ends its chain. */
  function SetNext(fat: seq<nat>, c: nat, next: nat): seq<nat>
    requires c < |fat|
  {
    fat[c := if c == next then NONE else next]
  }

  /** Where a search with this hint starts. */
  function SearchStart(hint: nat): nat {
    if hint == NONE then 0 else hint
  }

  /** The first free cluster at or above `from`. */
  function FirstFree(fat: seq<nat>, from: nat): (r: Option<nat>)
    ensures r.None? ==> forall c :: from <= c < |fat| ==> fat[c] != 0
    ensures r.Some? ==> from <= r.value < |fat| && fat[r.value] == 0 && forall c :: from <= c < r.value ==> fat[c] != 0
    decreases |fat| - from
  {
    if from >= |fat| then None
    else if fat[from] == 0 then Some(from)
    else FirstFree(fat, from + 1)
  }

  /** `fat32_find_free_cluster`: a search that finds nothing answers with the old hint. */
  function FindFree(fat: seq<nat>, hint: nat): nat {
    var r := FirstFree(fat, SearchStart(hint));
    if r.Some? then r.value else hint
  }

  /** What a search answers: the lowest free cluster at or above the hint, or of the whole table if the hint is
      0xffffffff; the old hint if there is none. */
  ghost predicate Answers(fat: seq<nat>, hint: nat, c: nat) {
    var from := if hint == 0xffff_ffff then 0 else hint;
    || (from <= c < |fat| && fat[c] == 0 && forall k :: from <= k < c ==> fat[k] != 0)
    || (c == hint && forall k :: from <= k < |fat| ==> fat[k] != 0)
  }

  lemma FindFreeAnswers(fat: seq<nat>, hint: nat)
    ensures Answers(fat, hint, FindFree(fat, hint))
  {
  }

  /** Only an end mark ends a chain for the writer, and linking a cluster to itself stores one. */
  lemma EndMarks(fat: seq<nat>, c: nat)
    requires 0 < c < |fat| <= 0x0fff_ffff
    ensures IsChain(fat, [c]) <==> fat[c] >= 0x0fff_ffff
    ensures SetNext(fat, c, c)[c] == 0xffff_ffff && forall next :: next != c ==> SetNext(fat, c, next)[c] == next
  {
  }

  datatype State = State(fat: seq<nat>, hint: nat, cluster: nat)

  /** One turn of the loop of `fat32_write`, after the block is written: go to the next cluster, or link a
      new one.  Nothing if a cluster number outside the table would be used. */
  function WriteStep(s: State): Option<State> {
    if s.cluster >= |s.fat| then None
    else if s.fat[s.cluster] < END then Some(s.(cluster := s.fat[s.cluster]))
    else
      var f := FindFree(s.fat, s.hint);
      if f >= |s.fat| then None
      else Some(State(SetNext(SetNext(s.fat, s.cluster, f), f, NONE), f, f))
  }

  function WriteSteps(s: State, n: nat): Option<State>
    decreases n
  {
    if n == 0 then Some(s)
    else
      var s' := WriteStep(s);
      if s' == None then None else WriteSteps(s'.value, n - 1)
  }

  /** The clusters whose sectors the turns write, in order. */
  function Trail(s: State, n: nat): (t: seq<nat>)
    requires WriteSteps(s, n).Some?
    ensures |t| == n
    decreases n
  {
    if n == 0 then [] else [s.cluster] + Trail(WriteStep(s).value, n - 1)
  }

  /** The states that the turns pass, the first and the last included. */
  function States(s: State, n: nat): (ss: seq<State>)
    requires WriteSteps(s, n).Some?
    ensures |ss| == n + 1 && ss[0] == s && ss[n] == WriteSteps(s, n).value
    decreases n
  {
    if n == 0 then [s] else [s] + States(WriteStep(s).value, n - 1)
  }

  // ----- what a write should do

  /** The free clusters at or above `from`. */
  ghost function FreeFrom(fat: seq<nat>, from: nat): set<nat> {
    set c: nat | from <= c < |fat| && fat[c] == 0
  }

  /** The first `k` free clusters at or above `from`. */
  function Fresh(fat: seq<nat>, from: nat, k: nat): (r: seq<nat>)
    ensures |r| <= k
    decreases k
  {
    if k == 0 then []
    else
      var f := FirstFree(fat, from);
      if f.None? then [] else [f.value] + Fresh(fat, f.value + 1, k - 1)
  }

  /** The table with `f` appended to the chain that ends in `c`. */
  function Append(fat: seq<nat>, c: nat, f: nat): seq<nat>
    requires c < |fat| && f < |fat|
  {
    fat[c := f][f := NONE]
  }

  /** The table with `added` appended, one after the other, to the chain that ends in `c`. */
  function AppendAll(fat: seq<nat>, c: nat, added: seq<nat>): (r: seq<nat>)
    requires c < |fat| && forall i :: 0 <= i < |added| ==> added[i] < |fat|
    ensures |r| == |fat|
    decreases |added|
  {
    if added == [] then fat else AppendAll(Append(fat, c, added[0]), added[0], added[1..])
  }

  /** How many clusters `n` turns from the chain's place `i` add. */
  function Needed(len: nat, i: nat, n: nat): nat {
    Max(0, i + n + 1 - len)
  }

  ghost predicate Enough(s: State, len: nat, i: nat, n: nat) {
    Needed(len, i, n) <= |FreeFrom(s.fat, SearchStart(s.hint))|
  }

  lemma {:induction false} FreshAreFree(fat: seq<nat>, from: nat, k: nat)
    ensures var r := Fresh(fat, from, k);
      && (forall i :: 0 <= i < |r| ==> from <= r[i] < |fat| && fat[r[i]] == 0)
      && (forall i, j :: 0 <= i < j < |r| ==> r[i] < r[j])
      && Distinct(r)
    decreases k
  {
    if k != 0 {
      var f := FirstFree(fat, from);
      if f.Some? {
        FreshAreFree(fat, f.value + 1, k - 1);
        assert Fresh(fat, from, k) == [f.value] + Fresh(fat, f.value + 1, k - 1);
      }
    }
  }

  /** They are the first ones: a free cluster that is not among them lies above them all. */
  lemma {:induction false} FreshAreFirst(fat: seq<nat>, from: nat, k: nat, c: nat)
    requires c in FreeFrom(fat, from) && c !in Fresh(fat, from, k)
    ensures |Fresh(fat, from, k)| == k && forall i :: 0 <= i < k ==> Fresh(fat, from, k)[i] < c
    decreases k
  {
    if k != 0 {
      var f := FirstFree(fat, from).value;
      assert Fresh(fat, from, k) == [f] + Fresh(fat, f + 1, k - 1);
      FreshAreFirst(fat, f + 1, k - 1, c);
    }
  }

  lemma {:induction false} FreshAreEnough(fat: seq<nat>, from: nat, k: nat)
    ensures |Fresh(fat, from, k)| == k <==> k <= |FreeFrom(fat, from)|
    decreases k
  {
    var f := FirstFree(fat, from);
    if f.None? {
      assert FreeFrom(fat, from) == {};
    } else if k != 0 {
      FreshAreEnough(fat, f.value + 1, k - 1);
      assert FreeFrom(fat, from) == {f.value} + FreeFrom(fat, f.value + 1);
    }
  }

  /** Only what lies at or above the search start decides which clusters are added. */
  lemma {:induction false} FreshDependsAbove(a: seq<nat>, b: seq<nat>, from: nat, k: nat)
    requires |a| == |b| && forall c :: from <= c < |a| ==> (a[c] == 0 <==> b[c] == 0)
    ensures Fresh(a, from, k) == Fresh(b, from, k)
    decreases k
  {
    if k != 0 {
      FirstFreeDependsAbove(a, b, from);
      var f := FirstFree(a, from);
      if f.Some? {
        FreshDependsAbove(a, b, f.value + 1, k - 1);
      }
    }
  }

  lemma FirstFreeDependsAbove(a: seq<nat>, b: seq<nat>, from: nat)
    requires |a| == |b| && forall c :: from <= c < |a| ==> (a[c] == 0 <==> b[c] == 0)
    ensures FirstFree(a, from) == FirstFree(b, from)
  {
  }

  // ----- what a write does

  lemma AppendKeepsChain(fat: seq<nat>, ch: seq<nat>, f: nat)
    requires IsChain(fat, ch) && 0 < f < |fat| && fat[f] == 0
    ensures f !in ch && IsChain(Append(fat, ch[|ch| - 1], f), ch + [f])
  {
    ChainsAreAcyclic(fat, ch, END);
    ChainIsTaken(fat, ch, END);
  }

  /** No cluster of a chain is free. */
  lemma ChainIsTaken(fat: seq<nat>, ch: seq<nat>, mark: nat)
    requires ChainTo(fat, ch, mark)
    ensures forall i :: 0 <= i < |ch| ==> fat[ch[i]] != 0
  {
    forall i | 0 <= i < |ch|
      ensures fat[ch[i]] != 0
    {
      if i < |ch| - 1 {
        assert fat[ch[i]] == ch[i + 1];
      }
    }
  }

  /** Appending clusters that were free makes the chain the old one followed by them. */
  lemma {:induction false} AppendAllGrows(fat: seq<nat>, ch: seq<nat>, added: seq<nat>)
    requires IsChain(fat, ch) && Distinct(added)
    requires forall i :: 0 <= i < |added| ==> 0 < added[i] < |fat| && fat[added[i]] == 0
    ensures IsChain(AppendAll(fat, ch[|ch| - 1], added), ch + added)
    decreases |added|
  {
    if added == [] {
      assert ch + added == ch;
    } else {
      AppendKeepsChain(fat, ch, added[0]);
      ChainIsTaken(fat, ch, END);
      AppendAllGrows(Append(fat, ch[|ch| - 1], added[0]), ch + [added[0]], added[1..]);
      assert ch + [added[0]] + added[1..] == ch + added;
    }
  }

  /** Appending leaves every entry but the old end's and the new clusters'. */
  lemma {:induction false} AppendAllFrame(fat: seq<nat>, c: nat, added: seq<nat>, k: nat)
    requires c < |fat| && (forall i :: 0 <= i < |added| ==> added[i] < |fat|) && k < |fat|
    requires k != c && k !in added
    ensures AppendAll(fat, c, added)[k] == fat[k]
    decreases |added|
  {
    if added != [] {
      AppendAllFrame(Append(fat, c, added[0]), added[0], added[1..], k);
    }
  }

  ghost predicate Writable(s: State, ch: seq<nat>, i: nat) {
    IsChain(s.fat, ch) && i < |ch| && s.cluster == ch[i] && 0 < |s.fat| && s.fat[0] != 0
  }

  /** A turn inside the chain moves to the next place. */
  lemma FollowStep(s: State, ch: seq<nat>, i: nat)
    requires Writable(s, ch, i) && i + 1 < |ch|
    ensures WriteStep(s) == Some(s.(cluster := ch[i + 1])) && Writable(s.(cluster := ch[i + 1]), ch, i + 1)
  {
    assert s.fat[ch[i]] == ch[i + 1];
  }

  /** The first free cluster is linked next, and the others stay the fresh ones of the new table. */
  lemma FreshStep(fat: seq<nat>, from: nat, c: nat, n: nat)
    requires c < |fat| && fat[c] != 0 && (|fat| == 0 || fat[0] != 0)
    requires 1 <= n <= |FreeFrom(fat, from)|
    ensures var f := FirstFree(fat, from);
      && f.Some? && 0 < f.value
      && n - 1 <= |FreeFrom(Append(fat, c, f.value), f.value)|
      && Fresh(fat, from, n) == [f.value] + Fresh(Append(fat, c, f.value), f.value, n - 1)
  {
    FreshAreEnough(fat, from, n);
    var f := FirstFree(fat, from).value;
    FreeAfterAppend(fat, from, c, f);
    var fat' := Append(fat, c, f);
    FreshDependsAbove(fat, fat', f + 1, n - 1);
    assert FirstFree(fat', f) == FirstFree(fat', f + 1);
  }

  /** A turn at the end links the first free cluster at or above the hint. */
  lemma LinkStep(s: State, ch: seq<nat>, i: nat)
    requires Writable(s, ch, i) && i + 1 == |ch| && FirstFree(s.fat, SearchStart(s.hint)).Some?
    ensures var f := FirstFree(s.fat, SearchStart(s.hint)).value;
      && 0 < f && s.fat[s.cluster] != 0
      && var s' := State(Append(s.fat, s.cluster, f), f, f);
      && WriteStep(s) == Some(s') && Writable(s', ch + [f], i + 1)
  {
    AppendKeepsChain(s.fat, ch, FirstFree(s.fat, SearchStart(s.hint)).value);
  }

  /** `n` turns from `s`, at place `i` of `ch`, end in `s'`: they append `added` to the chain and pass the
      clusters `t`. */
  ghost predicate Links(s: State, s': State, t: seq<nat>, ch: seq<nat>, i: nat, n: nat, added: seq<nat>) {
    && 0 < |ch| && ch[|ch| - 1] < |s.fat| && i + n < |ch + added|
    && (forall j :: 0 <= j < |added| ==> added[j] < |s.fat|)
    && s'.fat == AppendAll(s.fat, ch[|ch| - 1], added)
    && s'.cluster == (ch + added)[i + n]
    && t == (ch + added)[i..i + n]
  }

  lemma StepsUnfold(s: State, s1: State, n: nat)
    requires 1 <= n && WriteStep(s) == Some(s1) && WriteSteps(s1, n - 1).Some?
    ensures WriteSteps(s, n) == WriteSteps(s1, n - 1)
    ensures Trail(s, n) == [s.cluster] + Trail(s1, n - 1)
  {
  }

  lemma FollowLinks(s: State, s1: State, s': State, t: seq<nat>, ch: seq<nat>, i: nat, n: nat, added: seq<nat>)
    requires 1 <= n && s1.fat == s.fat && i < |ch| && Links(s1, s', t, ch, i + 1, n - 1, added)
    ensures Links(s, s', [ch[i]] + t, ch, i, n, added)
  {
    assert (ch + added)[i..i + n] == [ch[i]] + (ch + added)[i + 1..i + n];
  }

  lemma AppendLinks(s: State, s1: State, s': State, t: seq<nat>, ch: seq<nat>, i: nat, n: nat, f: nat, rest: seq<nat>)
    requires 1 <= n && i + 1 == |ch| && ch[i] < |s.fat| && f < |s.fat| && s1.fat == Append(s.fat, ch[i], f)
    requires Links(s1, s', t, ch + [f], i + 1, n - 1, rest)
    ensures Links(s, s', [ch[i]] + t, ch, i, n, [f] + rest)
  {
    var added := [f] + rest;
    assert ch + [f] + rest == ch + added;
    assert (ch + added)[i..i + n] == [ch[i]] + (ch + added)[i + 1..i + n];
    assert added[1..] == rest;
  }

  /** The turns do what `Links` says with the first free clusters at or above the hint. */
  ghost predicate LinksFresh(s: State, ch: seq<nat>, i: nat, n: nat) {
    && WriteSteps(s, n).Some?
    && Links(s, WriteSteps(s, n).value, Trail(s, n), ch, i, n, Fresh(s.fat, SearchStart(s.hint), Needed(|ch|, i, n)))
  }

  lemma NoTurns(s: State, ch: seq<nat>, i: nat)
    requires Writable(s, ch, i)
    ensures LinksFresh(s, ch, i, 0)
  {
    assert ch + [] == ch;
  }

  lemma FollowCase(s: State, s1: State, ch: seq<nat>, i: nat, n: nat)
    requires 1 <= n && i + 1 < |ch| && s.cluster == ch[i] && s1 == s.(cluster := ch[i + 1])
    requires WriteStep(s) == Some(s1) && LinksFresh(s1, ch, i + 1, n - 1)
    ensures LinksFresh(s, ch, i, n)
  {
    StepsUnfold(s, s1, n);
    FollowLinks(s, s1, WriteSteps(s1, n - 1).value, Trail(s1, n - 1), ch, i, n,
                Fresh(s.fat, SearchStart(s.hint), Needed(|ch|, i, n)));
  }

  /** The turn at the end of the chain links cluster `f`, the first of the `n` fresh ones. */
  ghost predicate LinksTo(s: State, s1: State, ch: seq<nat>, i: nat, n: nat, f: nat) {
    && 1 <= n && i + 1 == |ch| && s.cluster == ch[i] < |s.fat| && f < |s.fat| && f != NONE
    && s1 == State(Append(s.fat, ch[i], f), f, f) && WriteStep(s) == Some(s1)
    && Fresh(s.fat, SearchStart(s.hint), n) == [f] + Fresh(s1.fat, f, n - 1)
  }

  lemma LinkCase(s: State, s1: State, ch: seq<nat>, i: nat, n: nat, f: nat)
    requires LinksTo(s, s1, ch, i, n, f) && LinksFresh(s1, ch + [f], i + 1, n - 1)
    ensures LinksFresh(s, ch, i, n)
  {
    StepsUnfold(s, s1, n);
    AppendLinks(s, s1, WriteSteps(s1, n - 1).value, Trail(s1, n - 1), ch, i, n, f, Fresh(s1.fat, f, n - 1));
  }

  lemma LinkReady(s: State, ch: seq<nat>, i: nat, n: nat) returns (s1: State, f: nat)
    requires Writable(s, ch, i) && i + 1 == |ch| && 1 <= n && Enough(s, |ch|, i, n)
    ensures LinksTo(s, s1, ch, i, n, f)
    ensures Writable(s1, ch + [f], i + 1) && Enough(s1, |ch + [f]|, i + 1, n - 1)
  {
    ChainIsTaken(s.fat, ch, END);
    FreshStep(s.fat, SearchStart(s.hint), s.cluster, n);
    LinkStep(s, ch, i);
    f := FirstFree(s.fat, SearchStart(s.hint)).value;
    s1 := State(Append(s.fat, s.cluster, f), f, f);
  }

  /** With enough free clusters, `n` turns from place `i` of a chain link in the first free clusters at or
      above the hint, and pass the places of the grown chain in order. */
  lemma {:induction false} WriteStepsLink(s: State, ch: seq<nat>, i: nat, n: nat)
    requires Writable(s, ch, i) && Enough(s, |ch|, i, n)
    ensures LinksFresh(s, ch, i, n)
    decreases n, 1
  {
    if n == 0 {
      NoTurns(s, ch, i);
    } else if i + 1 < |ch| {
      StepsFollow(s, ch, i, n);
    } else {
      StepsLink(s, ch, i, n);
    }
  }

  lemma {:induction false} StepsFollow(s: State, ch: seq<nat>, i: nat, n: nat)
    requires Writable(s, ch, i) && i + 1 < |ch| && 1 <= n && Enough(s, |ch|, i, n)
    ensures LinksFresh(s, ch, i, n)
    decreases n, 0
  {
    FollowStep(s, ch, i);
    WriteStepsLink(s.(cluster := ch[i + 1]), ch, i + 1, n - 1);
    FollowCase(s, s.(cluster := ch[i + 1]), ch, i, n);
  }

  lemma {:induction false} StepsLink(s: State, ch: seq<nat>, i: nat, n: nat)
    requires Writable(s, ch, i) && i + 1 == |ch| && 1 <= n && Enough(s, |ch|, i, n)
    ensures LinksFresh(s, ch, i, n)
    decreases n, 0
  {
    var s1, f := LinkReady(s, ch, i, n);
    WriteStepsLink(s1, ch + [f], i + 1, n - 1);
    LinkCase(s, s1, ch, i, n, f);
  }

  lemma FreeAfterAppend(fat: seq<nat>, from: nat, c: nat, f: nat)
    requires c < |fat| && fat[c] != 0 && FirstFree(fat, from) == Some(f) && f != 0
    ensures FreeFrom(Append(fat, c, f), f) == FreeFrom(fat, from) - {f}
    ensures forall k :: f + 1 <= k < |fat| ==> (fat[k] == 0 <==> Append(fat, c, f)[k] == 0)
    ensures |FreeFrom(Append(fat, c, f), f)| == |FreeFrom(fat, from)| - 1
  {
    assert f in FreeFrom(fat, from);
  }

  // ----- the main results

  /** Growth: with enough free clusters, writing `n` blocks to a file makes its chain the old one followed by
      the first free clusters at or above the hint, as long as the longer of the old chain and `n + 1`. */
  lemma WriteGrows(s: State, ch: seq<nat>, n: nat)
    requires Writable(s, ch, 0) && Enough(s, |ch|, 0, n)
    ensures LinksFresh(s, ch, 0, n)
    ensures var added := Fresh(s.fat, SearchStart(s.hint), Needed(|ch|, 0, n));
      && |ch + added| == Max(|ch|, n + 1)
      && (forall i :: 0 <= i < |added| ==> SearchStart(s.hint) <= added[i] < |s.fat| && s.fat[added[i]] == 0)
      && IsChain(WriteSteps(s, n).value.fat, ch + added) && Distinct(ch + added)
      && Trail(s, n) == (ch + added)[..n]
  {
    var from, need := SearchStart(s.hint), Needed(|ch|, 0, n);
    WriteStepsLink(s, ch, 0, n);
    FreshAreFree(s.fat, from, need);
    FreshAreEnough(s.fat, from, need);
    var added := Fresh(s.fat, from, need);
    AppendAllGrows(s.fat, ch, added);
    ChainsAreAcyclic(WriteSteps(s, n).value.fat, ch + added, END);
  }

  /** The write did what it should: the chain is the old one followed by clusters that were free at or above
      the hint, and long enough. */
  ghost predicate GrownBy(s: State, ch: seq<nat>, n: nat, added: seq<nat>) {
    WriteSteps(s, n).Some? && Extends(s, ch, n, added) && IsChain(WriteSteps(s, n).value.fat, ch + added)
  }

  ghost predicate Extends(s: State, ch: seq<nat>, n: nat, added: seq<nat>) {
    && |ch + added| == Max(|ch|, n + 1)
    && forall i :: 0 <= i < |added| ==> added[i] in FreeFrom(s.fat, SearchStart(s.hint))
  }

  lemma {:induction false} DistinctFits(s: seq<nat>, all: set<nat>)
    requires Distinct(s) && forall i :: 0 <= i < |s| ==> s[i] in all
    ensures |s| <= |all|
  {
    if s != [] {
      DistinctFits(s[1..], all - {s[0]});
    }
  }

  lemma GrownNeedsEnough(s: State, ch: seq<nat>, n: nat, added: seq<nat>, fat: seq<nat>, mark: nat)
    requires Extends(s, ch, n, added) && ChainTo(fat, ch + added, mark)
    ensures Enough(s, |ch|, 0, n)
  {
    ChainsAreAcyclic(fat, ch + added, mark);
    assert forall i :: 0 <= i < |added| ==> added[i] == (ch + added)[|ch| + i];
    DistinctFits(added, FreeFrom(s.fat, SearchStart(s.hint)));
  }

  /** Exactly when a write does what it should: when enough clusters are free at or above the hint. */
  lemma WriteGrowsExactly(s: State, ch: seq<nat>, n: nat)
    requires Writable(s, ch, 0)
    ensures (exists added :: GrownBy(s, ch, n, added)) <==> Enough(s, |ch|, 0, n)
  {
    if Enough(s, |ch|, 0, n) {
      WriteGrows(s, ch, n);
      assert GrownBy(s, ch, n, Fresh(s.fat, SearchStart(s.hint), Needed(|ch|, 0, n)));
    }
    if added :| GrownBy(s, ch, n, added) {
      GrownNeedsEnough(s, ch, n, added, WriteSteps(s, n).value.fat, END);
    }
  }

  // ----- writes that run short

  lemma {:induction false} Idles(s: State, n: nat)
    requires WriteStep(s) == Some(s)
    ensures WriteSteps(s, n) == Some(s)
    decreases n
  {
    if n != 0 {
      Idles(s, n - 1);
    }
  }

  /** A vain search at the end of the file that it last grew by answers with that end. */
  lemma EndRests(fat: seq<nat>, f: nat)
    requires f < |fat| <= END && fat[f] == NONE && FreeFrom(fat, f) == {}
    ensures WriteStep(State(fat, f, f)) == Some(State(fat, f, f))
  {
    NothingFree(fat, f);
    assert fat[f := NONE] == fat;
  }

  lemma SomethingFree(fat: seq<nat>, from: nat)
    requires FreeFrom(fat, from) != {}
    ensures FirstFree(fat, from).Some?
  {
    var c :| c in FreeFrom(fat, from);
  }

  /** A turn at the end that finds a cluster leaves one free cluster less. */
  lemma LinkLeaves(s: State, ch: seq<nat>, i: nat)
    requires Writable(s, ch, i) && i + 1 == |ch| && FreeFrom(s.fat, SearchStart(s.hint)) != {}
    ensures FirstFree(s.fat, SearchStart(s.hint)).Some?
    ensures var f := FirstFree(s.fat, SearchStart(s.hint)).value;
      var s1 := State(Append(s.fat, s.cluster, f), f, f);
      && WriteStep(s) == Some(s1) && Writable(s1, ch + [f], i + 1) && SearchStart(f) == f
      && s1.fat[f] == NONE && |FreeFrom(s1.fat, f)| == |FreeFrom(s.fat, SearchStart(s.hint))| - 1
  {
    SomethingFree(s.fat, SearchStart(s.hint));
    LinkStep(s, ch, i);
    FreeAfterAppend(s.fat, SearchStart(s.hint), s.cluster, FirstFree(s.fat, SearchStart(s.hint)).value);
  }

  /** A write that needs more clusters than there are, but finds one, ends in the state of the longest write
      that does not: the turns past the last free cluster change nothing. */
  lemma {:induction false} ShortSteps(s: State, ch: seq<nat>, i: nat, n: nat)
    requires Writable(s, ch, i) && FreeFrom(s.fat, SearchStart(s.hint)) != {}
    requires |FreeFrom(s.fat, SearchStart(s.hint))| < Needed(|ch|, i, n)
    ensures WriteSteps(s, n) == WriteSteps(s, |ch| - 1 - i + |FreeFrom(s.fat, SearchStart(s.hint))|)
    decreases n
  {
    if i + 1 < |ch| {
      FollowStep(s, ch, i);
      ShortSteps(s.(cluster := ch[i + 1]), ch, i + 1, n - 1);
    } else {
      LinkLeaves(s, ch, i);
      var f := FirstFree(s.fat, SearchStart(s.hint)).value;
      var s1 := State(Append(s.fat, s.cluster, f), f, f);
      if FreeFrom(s1.fat, f) == {} {
        EndRests(s1.fat, f);
        Idles(s1, n - 1);
      } else {
        ShortSteps(s1, ch + [f], i + 1, n - 1);
      }
    }
  }

  lemma {:induction false} FreshRunsOut(fat: seq<nat>, from: nat, k: nat)
    requires |FreeFrom(fat, from)| <= k
    ensures Fresh(fat, from, k) == Fresh(fat, from, |FreeFrom(fat, from)|)
    decreases k
  {
    var f := FirstFree(fat, from);
    if f.None? {
      assert FreeFrom(fat, from) == {};
    } else {
      assert FreeFrom(fat, from) == {f.value} + FreeFrom(fat, f.value + 1);
      FreshRunsOut(fat, f.value + 1, k - 1);
    }
  }

  lemma FreshLength(fat: seq<nat>, from: nat, k: nat)
    ensures |Fresh(fat, from, k)| == Least(k, |FreeFrom(fat, from)|)
    ensures Fresh(fat, from, k) == Fresh(fat, from, Least(k, |FreeFrom(fat, from)|))
  {
    var least := Least(k, |FreeFrom(fat, from)|);
    FreshAreEnough(fat, from, least);
    if least < k {
      FreshRunsOut(fat, from, k);
    }
  }

  lemma ShortWriteGrows(s: State, ch: seq<nat>, n: nat)
    requires Writable(s, ch, 0) && FreeFrom(s.fat, SearchStart(s.hint)) != {} && !Enough(s, |ch|, 0, n)
    ensures WriteSteps(s, n).Some?
    ensures var added := Fresh(s.fat, SearchStart(s.hint), |FreeFrom(s.fat, SearchStart(s.hint))|);
      IsChain(WriteSteps(s, n).value.fat, ch + added) && Distinct(ch + added)
  {
    var m := |ch| - 1 + |FreeFrom(s.fat, SearchStart(s.hint))|;
    ShortSteps(s, ch, 0, n);
    assert Needed(|ch|, 0, m) == |FreeFrom(s.fat, SearchStart(s.hint))|;
    WriteGrows(s, ch, m);
  }

  /** Growth, as far as the disk allows: a write that has nothing to add, or finds one free cluster at or above
      the hint, goes through and leaves one chain, the old one followed by the first free clusters, as many as
      it needs or as there are. */
  lemma WriteGrowsAsFar(s: State, ch: seq<nat>, n: nat)
    requires Writable(s, ch, 0)
    requires Needed(|ch|, 0, n) == 0 || FreeFrom(s.fat, SearchStart(s.hint)) != {}
    ensures WriteSteps(s, n).Some?
    ensures var added := Fresh(s.fat, SearchStart(s.hint), Needed(|ch|, 0, n));
      && |added| == Least(Needed(|ch|, 0, n), |FreeFrom(s.fat, SearchStart(s.hint))|)
      && IsChain(WriteSteps(s, n).value.fat, ch + added) && Distinct(ch + added)
  {
    FreshLength(s.fat, SearchStart(s.hint), Needed(|ch|, 0, n));
    if Enough(s, |ch|, 0, n) {
      WriteGrows(s, ch, n);
    } else {
      ShortWriteGrows(s, ch, n);
    }
  }

  // ----- what a write leaves alone

  /** The turns neither change the entry of cluster `c`, nor write to its sectors, nor stop at it. */
  ghost predicate Untouched(s: State, n: nat, c: nat)
    requires WriteSteps(s, n).Some?
  {
    var s' := WriteSteps(s, n).value;
    c < |s.fat| == |s'.fat| && s'.fat[c] == s.fat[c] && c !in Trail(s, n) && s'.cluster != c
  }

  /** What can be checked before a write that has to add `needed` clusters: none, or some cluster is free at
      or above the hint, or `c` is not the hint that a vain search would answer with. */
  ghost predicate Avoids(s: State, needed: nat, c: nat) {
    needed == 0 || FreeFrom(s.fat, SearchStart(s.hint)) != {} || s.hint != c
  }

  /** The current cluster ends its file, and `c` is neither it nor free where the search looks. */
  ghost predicate Beside(s: State, c: nat) {
    && s.cluster < |s.fat| <= END && s.fat[s.cluster] >= END && s.fat[0] != 0
    && c < |s.fat| && c != s.cluster && c !in FreeFrom(s.fat, SearchStart(s.hint))
  }

  lemma LinkAvoids(s: State, c: nat)
    requires Beside(s, c) && c != FindFree(s.fat, s.hint) && WriteStep(s).Some?
    ensures var s1 := WriteStep(s).value;
      Beside(s1, c) && s1.cluster == s1.hint && |s1.fat| == |s.fat| && s1.fat[c] == s.fat[c]
  {
  }

  /** Once a write has found one cluster, or answered one vain search, later vain searches only end the
      file again where it ends. */
  lemma {:induction false} EndAvoids(s: State, n: nat, c: nat)
    requires Beside(s, c) && s.cluster == s.hint && WriteSteps(s, n).Some?
    ensures Untouched(s, n, c)
    decreases n
  {
    if n != 0 {
      LinkAvoids(s, c);
      EndAvoids(WriteStep(s).value, n - 1, c);
    }
  }

  lemma {:induction false} WriteAvoids(s: State, ch: seq<nat>, i: nat, n: nat, c: nat)
    requires Writable(s, ch, i) && WriteSteps(s, n).Some? && Avoids(s, Needed(|ch|, i, n), c)
    requires c < |s.fat| && c !in ch && c !in FreeFrom(s.fat, SearchStart(s.hint))
    ensures Untouched(s, n, c)
    decreases n
  {
    if n != 0 {
      if i + 1 < |ch| {
        FollowStep(s, ch, i);
        WriteAvoids(s.(cluster := ch[i + 1]), ch, i + 1, n - 1, c);
      } else {
        LinkAvoids(s, c);
        EndAvoids(WriteStep(s).value, n - 1, c);
      }
    }
  }

  lemma {:induction false} EndStays(s: State, n: nat)
    requires 0 < s.cluster == s.hint < |s.fat| <= END && s.fat[s.cluster] >= END && FreeFrom(s.fat, s.hint) == {}
    requires WriteSteps(s, n).Some?
    ensures WriteSteps(s, n).value.cluster == s.hint
    decreases n
  {
    if n != 0 {
      NothingFree(s.fat, s.hint);
      EndStays(WriteStep(s).value, n - 1);
    }
  }

  lemma NothingFree(fat: seq<nat>, from: nat)
    requires FreeFrom(fat, from) == {}
    ensures FirstFree(fat, from) == None
    ensures forall c :: from <= c < |fat| ==> fat[c] != 0
  {
    forall c | from <= c < |fat|
      ensures fat[c] != 0
    {
      assert c !in FreeFrom(fat, from);
    }
  }

  /** With nothing free at or above the hint, a write that has to add a cluster ends up at the hint. */
  lemma {:induction false} WriteEndsAtHint(s: State, ch: seq<nat>, i: nat, n: nat)
    requires Writable(s, ch, i) && WriteSteps(s, n).Some? && 0 < Needed(|ch|, i, n)
    requires FreeFrom(s.fat, SearchStart(s.hint)) == {} && 0 < s.hint
    ensures WriteSteps(s, n).value.cluster == s.hint
    decreases n
  {
    if i + 1 < |ch| {
      FollowStep(s, ch, i);
      WriteEndsAtHint(s.(cluster := ch[i + 1]), ch, i + 1, n - 1);
    } else {
      NothingFree(s.fat, SearchStart(s.hint));
      var s1 := WriteStep(s).value;
      assert FreeFrom(s1.fat, s1.hint) == {};
      EndStays(s1, n - 1);
    }
  }

  /** Exactly which taken clusters outside the file a write leaves alone. */
  lemma WriteAvoidsExactly(s: State, ch: seq<nat>, n: nat, c: nat)
    requires Writable(s, ch, 0) && WriteSteps(s, n).Some?
    requires 0 < c < |s.fat| && c !in ch && c !in FreeFrom(s.fat, SearchStart(s.hint))
    ensures Untouched(s, n, c) <==> Avoids(s, Needed(|ch|, 0, n), c)
  {
    if Avoids(s, Needed(|ch|, 0, n), c) {
      WriteAvoids(s, ch, 0, n, c);
    } else {
      WriteEndsAtHint(s, ch, 0, n);
    }
  }

  lemma {:induction false} TrailLast(s: State, n: nat)
    requires 1 <= n && WriteSteps(s, n).Some?
    ensures WriteSteps(s, n - 1).Some?
    ensures Trail(s, n) == Trail(s, n - 1) + [WriteSteps(s, n - 1).value.cluster]
    decreases n
  {
    if 1 < n {
      TrailLast(WriteStep(s).value, n - 1);
    }
  }

  /** What can be checked before a write, for several clusters at once. */
  ghost predicate AvoidsAll(s: State, needed: nat, cs: seq<nat>) {
    needed == 0 || FreeFrom(s.fat, SearchStart(s.hint)) != {} || s.hint !in cs
  }

  ghost predicate TakenBeside(fat: seq<nat>, ch: seq<nat>, cs: seq<nat>) {
    Disjoint(ch, cs) && forall j :: 0 <= j < |cs| ==> 0 < cs[j] < |fat| && fat[cs[j]] != 0
  }

  lemma WriteAvoidsAll(s: State, ch: seq<nat>, n: nat, cs: seq<nat>)
    requires Writable(s, ch, 0) && WriteSteps(s, n).Some? && TakenBeside(s.fat, ch, cs)
    ensures AvoidsAll(s, Needed(|ch|, 0, n), cs) ==> forall j :: 0 <= j < |cs| ==> Untouched(s, n, cs[j])
    ensures !AvoidsAll(s, Needed(|ch|, 0, n), cs) ==> WriteSteps(s, n).value.cluster in cs
  {
    if AvoidsAll(s, Needed(|ch|, 0, n), cs) {
      forall j | 0 <= j < |cs|
        ensures Untouched(s, n, cs[j])
      {
        WriteAvoids(s, ch, 0, n, cs[j]);
      }
    } else {
      WriteEndsAtHint(s, ch, 0, n);
    }
  }

  /** The other file is the same chain afterwards and the write has not touched it. */
  ghost predicate Spared(s: State, n: nat, other: seq<nat>, mark: nat)
    requires WriteSteps(s, n).Some?
  {
    var s' := WriteSteps(s, n).value;
    ChainTo(s'.fat, other, mark) && Disjoint(Trail(s, n) + [s'.cluster], other)
  }

  /** Non-interference, exactly: a write spares another file if and only if it has no cluster to add, or finds
      one at or above the hint, or the hint lies outside that file.  `mark` is where the other file's reader
      lets end marks begin. */
  lemma WriteSparesExactly(s: State, ch: seq<nat>, n: nat, other: seq<nat>, mark: nat)
    requires Writable(s, ch, 0) && WriteSteps(s, n).Some?
    requires ChainTo(s.fat, other, mark) && Disjoint(ch, other)
    ensures Spared(s, n, other, mark) <==>
      Needed(|ch|, 0, n) == 0 || FreeFrom(s.fat, SearchStart(s.hint)) != {} || s.hint !in other
  {
    var s' := WriteSteps(s, n).value;
    ChainIsTaken(s.fat, other, mark);
    WriteAvoidsAll(s, ch, n, other);
    if AvoidsAll(s, Needed(|ch|, 0, n), other) {
      assert forall j :: 0 <= j < |other| ==> Untouched(s, n, other[j]);
      assert ChainTo(s'.fat, other, mark);
    } else {
      assert (Trail(s, n) + [s'.cluster])[n] == s'.cluster;
    }
  }

  /** Chains stay disjoint: when the file has nothing to add or finds one free cluster, its grown chain shares no
      cluster with any other chain, and the other is the same chain as before. */
  lemma WriteSparesOthers(s: State, ch: seq<nat>, n: nat, other: seq<nat>, mark: nat)
    requires Writable(s, ch, 0) && ChainTo(s.fat, other, mark) && Disjoint(ch, other)
    requires Needed(|ch|, 0, n) == 0 || FreeFrom(s.fat, SearchStart(s.hint)) != {}
    ensures WriteSteps(s, n).Some? && Spared(s, n, other, mark)
    ensures Disjoint(ch + Fresh(s.fat, SearchStart(s.hint), Needed(|ch|, 0, n)), other)
    ensures Enough(s, |ch|, 0, n) ==> LinksFresh(s, ch, 0, n)
  {
    WriteGrowsAsFar(s, ch, n);
    WriteSparesExactly(s, ch, n, other, mark);
    FreshAreFree(s.fat, SearchStart(s.hint), Needed(|ch|, 0, n));
    ChainIsTaken(s.fat, other, mark);
    if Enough(s, |ch|, 0, n) {
      WriteStepsLink(s, ch, 0, n);
    }
  }

  /** A full disk: clusters 2 and 3 are two files of one cluster and nothing is free.  One turn on the first
      file links it into the second. */
  lemma FullDiskCrossLinks()
    ensures var fat := [END, END, END, END];
      && IsChain(fat, [2]) && IsChain(fat, [3])
      && var s := WriteStep(State(fat, 3, 2));
      s.Some? && IsChain(s.value.fat, [2, 3]) && IsChain(s.value.fat, [3])
  {
    var fat := [END, END, END, END];
    assert FirstFree(fat, 3) == None;
  }

  // ----- the search hint

  /** Nothing is free between where the searches started and where the hint now points. */
  ghost predicate HintInv(fat: seq<nat>, start: nat, hint: nat) {
    && |fat| <= END && start <= SearchStart(hint)
    && forall c :: start <= c < SearchStart(hint) && c < |fat| ==> fat[c] != 0
  }

  datatype HintOp = Search | Link(cluster: nat, next: nat)

  /** Links store no zero, except in entries that the next search looks at. */
  ghost predicate HintCan(fat: seq<nat>, hint: nat, op: HintOp) {
    op.Link? ==> op.cluster < |fat| && (op.next != 0 || SearchStart(hint) <= op.cluster)
  }

  function HintStep(fat: seq<nat>, hint: nat, op: HintOp): (seq<nat>, nat)
    requires HintCan(fat, hint, op)
  {
    match op
    case Search => (fat, FindFree(fat, hint))
    case Link(c, next) => (SetNext(fat, c, next), hint)
  }

  ghost predicate HintCanAll(fat: seq<nat>, hint: nat, ops: seq<HintOp>)
    decreases |ops|
  {
    ops != [] ==>
      && HintCan(fat, hint, ops[0])
      && HintCanAll(HintStep(fat, hint, ops[0]).0, HintStep(fat, hint, ops[0]).1, ops[1..])
  }

  ghost function HintRun(fat: seq<nat>, hint: nat, ops: seq<HintOp>): (seq<nat>, nat)
    requires HintCanAll(fat, hint, ops)
    decreases |ops|
  {
    if ops == [] then (fat, hint)
    else HintRun(HintStep(fat, hint, ops[0]).0, HintStep(fat, hint, ops[0]).1, ops[1..])
  }

  lemma {:induction false} HintRunKeeps(fat: seq<nat>, start: nat, hint: nat, ops: seq<HintOp>)
    requires HintInv(fat, start, hint) && HintCanAll(fat, hint, ops)
    ensures var (fat', hint') := HintRun(fat, hint, ops); HintInv(fat', start, hint')
    decreases |ops|
  {
    if ops != [] {
      var (fat', hint') := HintStep(fat, hint, ops[0]);
      HintRunKeeps(fat', start, hint', ops[1..]);
    }
  }

  lemma {:induction false} FirstFreeSkipsTaken(fat: seq<nat>, start: nat, from: nat)
    requires start <= from && forall c :: start <= c < from && c < |fat| ==> fat[c] != 0
    ensures FirstFree(fat, start) == FirstFree(fat, from)
    decreases from - start
  {
    if start < from {
      FirstFreeSkipsTaken(fat, start + 1, from);
    }
  }

  /** Hint soundness: after any searches and any such links, a search resumed at the hint
      finds what a full search from the first start finds. */
  lemma HintIsSound(fat: seq<nat>, hint: nat, ops: seq<HintOp>)
    requires |fat| <= END && HintCanAll(fat, hint, ops)
    ensures var (fat', hint') := HintRun(fat, hint, ops);
      FirstFree(fat', SearchStart(hint')) == FirstFree(fat', SearchStart(hint))
  {
    HintRunKeeps(fat, SearchStart(hint), hint, ops);
    var (fat', hint') := HintRun(fat, hint, ops);
    FirstFreeSkipsTaken(fat', SearchStart(hint), SearchStart(hint'));
  }

  /** The searches and links of one turn of the writer: none inside the chain, one search and two links at
      its end. */
  function TurnHintOps(s: State): seq<HintOp> {
    if s.cluster >= |s.fat| || s.fat[s.cluster] < END then []
    else
      var f := FindFree(s.fat, s.hint);
      [Search] + ([Link(s.cluster, f)] + ([Link(f, NONE)] + []))
  }

  function WriteHintOps(s: State, n: nat): seq<HintOp>
    requires WriteSteps(s, n).Some?
    decreases n
  {
    if n == 0 then [] else TurnHintOps(s) + WriteHintOps(WriteStep(s).value, n - 1)
  }

  lemma HintUnfold(fat: seq<nat>, hint: nat, op: HintOp, ops: seq<HintOp>)
    requires HintCan(fat, hint, op) && HintCanAll(HintStep(fat, hint, op).0, HintStep(fat, hint, op).1, ops)
    ensures HintCanAll(fat, hint, [op] + ops)
    ensures HintRun(fat, hint, [op] + ops) == HintRun(HintStep(fat, hint, op).0, HintStep(fat, hint, op).1, ops)
  {
    assert ([op] + ops)[1..] == ops;
  }

  lemma WriteStepIsHintRun(s: State)
    requires |s.fat| <= END && WriteStep(s).Some?
    ensures HintCanAll(s.fat, s.hint, TurnHintOps(s))
    ensures HintRun(s.fat, s.hint, TurnHintOps(s)) == (WriteStep(s).value.fat, WriteStep(s).value.hint)
  {
    if s.fat[s.cluster] >= END {
      var f := FindFree(s.fat, s.hint);
      var fat1 := SetNext(s.fat, s.cluster, f);
      HintUnfold(fat1, f, Link(f, NONE), []);
      HintUnfold(s.fat, f, Link(s.cluster, f), [Link(f, NONE)] + []);
      HintUnfold(s.fat, s.hint, Search, [Link(s.cluster, f)] + ([Link(f, NONE)] + []));
    }
  }

  lemma {:induction false} HintConcat(fat: seq<nat>, hint: nat, a: seq<HintOp>, b: seq<HintOp>)
    requires HintCanAll(fat, hint, a) && HintCanAll(HintRun(fat, hint, a).0, HintRun(fat, hint, a).1, b)
    ensures HintCanAll(fat, hint, a + b)
    ensures HintRun(fat, hint, a + b) == HintRun(HintRun(fat, hint, a).0, HintRun(fat, hint, a).1, b)
    decreases |a|
  {
    if a == [] {
      assert a + b == b;
    } else {
      var (fat', hint') := HintStep(fat, hint, a[0]);
      HintConcat(fat', hint', a[1..], b);
      HintUnfold(fat, hint, a[0], a[1..] + b);
      assert a + b == [a[0]] + (a[1..] + b);
    }
  }

  /** Every write, whatever its searches find, is a sequence of searches and links that the hint survives. */
  lemma {:induction false} WriteIsHintRun(s: State, n: nat)
    requires |s.fat| <= END && WriteSteps(s, n).Some?
    ensures HintCanAll(s.fat, s.hint, WriteHintOps(s, n))
    ensures HintRun(s.fat, s.hint, WriteHintOps(s, n)) == (WriteSteps(s, n).value.fat, WriteSteps(s, n).value.hint)
    decreases n
  {
    if n != 0 {
      var s1 := WriteStep(s).value;
      WriteStepIsHintRun(s);
      WriteIsHintRun(s1, n - 1);
      HintConcat(s.fat, s.hint, TurnHintOps(s), WriteHintOps(s1, n - 1));
    }
  }

  /** Hint soundness of the writer: after any write, a search resumed at the hint finds what a full search from
      where the write's first search started finds. */
  lemma WriterHintIsSound(s: State, n: nat)
    requires |s.fat| <= END && WriteSteps(s, n).Some?
    ensures var s' := WriteSteps(s, n).value;
      FirstFree(s'.fat, SearchStart(s'.hint)) == FirstFree(s'.fat, SearchStart(s.hint))
  {
    WriteIsHintRun(s, n);
    HintIsSound(s.fat, s.hint, WriteHintOps(s, n));
  }
}
