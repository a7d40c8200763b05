/** What the chain writer of kernel/filesystems/fat.c does to its own file when it finds no free cluster: it
    links the file to the old hint and ends it there (lines 75-83, 97-101). */
module VainWrites {
  import opened Basics
  import opened Chains

  /** The write has clusters to add, and none is free at or above the hint. */
  ghost predicate Vain(s: State, len: nat, n: nat) {
    0 < Needed(len, 0, n) && FreeFrom(s.fat, SearchStart(s.hint)) == {}
  }

  /** The table with the file that ends in `c` linked to cluster `h`, which ends it. */
  function Linked(fat: seq<nat>, c: nat, h: nat): seq<nat>
    requires c < |fat| && h < |fat|
  {
    SetNext(SetNext(fat, c, h), h, NONE)
  }

  lemma {:induction false} ReachEnd(s: State, ch: seq<nat>, i: nat, n: nat)
    requires Writable(s, ch, i) && |ch| - 1 - i <= n
    ensures WriteSteps(s, n) == WriteSteps(s.(cluster := ch[|ch| - 1]), n - (|ch| - 1 - i))
    decreases n
  {
    if i + 1 < |ch| {
      FollowStep(s, ch, i);
      ReachEnd(s.(cluster := ch[i + 1]), ch, i + 1, n - 1);
    }
  }

  lemma VainStep(s: State)
    requires s.cluster < |s.fat| <= END && s.fat[s.cluster] >= END && FreeFrom(s.fat, SearchStart(s.hint)) == {}
    requires WriteStep(s).Some?
    ensures s.hint < |s.fat| && WriteStep(s) == Some(State(Linked(s.fat, s.cluster, s.hint), s.hint, s.hint))
  {
    NothingFree(s.fat, SearchStart(s.hint));
  }

  /** One vain search decides the outcome: the turns after it change nothing. */
  lemma VainWriteLeaves(s: State, ch: seq<nat>, n: nat)
    requires Writable(s, ch, 0) && WriteSteps(s, n).Some? && Vain(s, |ch|, n) && 0 < s.hint
    ensures s.hint < |s.fat|
    ensures WriteSteps(s, n) == Some(State(Linked(s.fat, ch[|ch| - 1], s.hint), s.hint, s.hint))
  {
    ReachEnd(s, ch, 0, n);
    VainStep(s.(cluster := ch[|ch| - 1]));
    var fat := Linked(s.fat, ch[|ch| - 1], s.hint);
    NothingFree(s.fat, s.hint);
    assert FreeFrom(fat, s.hint) == {};
    EndRests(fat, s.hint);
    Idles(State(fat, s.hint, s.hint), n - |ch|);
  }

  /** With hint 0 the first vain search stores a zero, the next one finds the cluster that this freed. */
  lemma ZeroHintLeaves(s: State, ch: seq<nat>, n: nat)
    requires Writable(s, ch, 0) && WriteSteps(s, n).Some? && Vain(s, |ch|, n) && s.hint == 0
    ensures var last := ch[|ch| - 1];
      WriteSteps(s, n) == Some(if n == |ch| then State(s.fat[last := 0][0 := NONE], 0, 0)
                               else State(s.fat[0 := last][last := NONE], last, last))
  {
    var last := ch[|ch| - 1];
    ReachEnd(s, ch, 0, n);
    VainStep(s.(cluster := last));
    var s1 := State(Linked(s.fat, last, 0), 0, 0);
    assert s1.fat == s.fat[last := 0][0 := NONE];
    if |ch| < n {
      NothingFree(s.fat, 0);
      OnlyFree(s1.fat, last);
      var fat := s.fat[0 := last][last := NONE];
      assert SetNext(SetNext(s1.fat, 0, last), last, NONE) == fat;
      assert FreeFrom(fat, last) == {};
      EndRests(fat, last);
      Idles(State(fat, last, last), n - |ch| - 1);
    }
  }

  lemma OnlyFree(fat: seq<nat>, c: nat)
    requires c < |fat| && fat[c] == 0 && forall k :: 0 <= k < |fat| && k != c ==> fat[k] != 0
    ensures FirstFree(fat, 0) == Some(c)
  {
  }

  /** The hint lies outside the file: it becomes the file's last cluster. */
  lemma OutsideHint(fat: seq<nat>, ch: seq<nat>, h: nat)
    requires IsChain(fat, ch) && 0 < h < |fat| && h !in ch
    ensures IsChain(Linked(fat, ch[|ch| - 1], h), ch + [h])
  {
    ChainsAreAcyclic(fat, ch, END);
  }

  /** The hint lies inside the file: the file ends there. */
  lemma InsideHint(fat: seq<nat>, ch: seq<nat>, j: nat)
    requires IsChain(fat, ch) && j < |ch|
    ensures IsChain(Linked(fat, ch[|ch| - 1], ch[j]), ch[..j + 1])
  {
    ChainsAreAcyclic(fat, ch, END);
  }

  /** With hint 0 the file is whole again. */
  lemma ZeroHint(fat: seq<nat>, ch: seq<nat>)
    requires IsChain(fat, ch)
    ensures IsChain(fat[0 := ch[|ch| - 1]][ch[|ch| - 1] := NONE], ch)
  {
    ChainsAreAcyclic(fat, ch, END);
  }

  /** What every write that goes through leaves of its own file.  It grows if it has nothing to add or finds a
      cluster.  If its first search is vain, the hint becomes its last cluster: a new one, or one of its own,
      and the file loses what followed.  With hint 0, its last entry becomes 0, and the next turn repairs it. */
  lemma WriteLeavesOwnChain(s: State, ch: seq<nat>, n: nat)
    requires Writable(s, ch, 0) && WriteSteps(s, n).Some?
    ensures var fat := WriteSteps(s, n).value.fat;
      && |fat| == |s.fat|
      && (!Vain(s, |ch|, n) ==> IsChain(fat, ch + Fresh(s.fat, SearchStart(s.hint), Needed(|ch|, 0, n))))
      && (Vain(s, |ch|, n) && 0 < s.hint && s.hint !in ch ==> IsChain(fat, ch + [s.hint]))
      && (Vain(s, |ch|, n) && 0 < s.hint ==>
            forall j :: 0 <= j < |ch| && ch[j] == s.hint ==> IsChain(fat, ch[..j + 1]))
      && (Vain(s, |ch|, n) && s.hint == 0 && n == |ch| ==> fat[ch[|ch| - 1]] == 0)
      && (Vain(s, |ch|, n) && s.hint == 0 && |ch| < n ==> IsChain(fat, ch))
  {
    if !Vain(s, |ch|, n) {
      WriteGrowsAsFar(s, ch, n);
      SameSize(s, n);
    } else if s.hint == 0 {
      ZeroHintLeaves(s, ch, n);
      ZeroHint(s.fat, ch);
    } else {
      VainWriteLeaves(s, ch, n);
      if s.hint !in ch {
        OutsideHint(s.fat, ch, s.hint);
      }
      forall j | 0 <= j < |ch| && ch[j] == s.hint
        ensures IsChain(WriteSteps(s, n).value.fat, ch[..j + 1])
      {
        InsideHint(s.fat, ch, j);
      }
    }
  }

  lemma {:induction false} SameSize(s: State, n: nat)
    requires WriteSteps(s, n).Some?
    ensures |WriteSteps(s, n).value.fat| == |s.fat|
    decreases n
  {
    if n != 0 {
      SameSize(WriteStep(s).value, n - 1);
    }
  }

  /** The file is still a chain that begins with all its old clusters. */
  ghost predicate KeepsFile(s: State, ch: seq<nat>, n: nat)
    requires WriteSteps(s, n).Some?
  {
    exists all :: IsChain(WriteSteps(s, n).value.fat, all) && ch <= all
  }

  lemma CutLosesFile(fat: seq<nat>, ch: seq<nat>, j: nat, all: seq<nat>)
    requires j + 1 < |ch| && IsChain(fat, ch[..j + 1]) && ch <= all
    ensures !IsChain(fat, all)
  {
    if IsChain(fat, all) {
      assert all[0] == ch[0];
      ChainIsUnique(fat, ch[..j + 1], all, END);
    }
  }

  lemma ZeroLosesFile(fat: seq<nat>, ch: seq<nat>, all: seq<nat>)
    requires 0 < |ch| && ch[|ch| - 1] < |fat| && fat[ch[|ch| - 1]] == 0 && ch <= all
    ensures !IsChain(fat, all)
  {
    if IsChain(fat, all) {
      assert all[|ch| - 1] == ch[|ch| - 1];
      ChainIsTaken(fat, all, END);
    }
  }

  /** Exactly which writes keep the file they write to: those that have nothing to add, find a cluster, or whose
      hint lies outside the file or at its end; with hint 0, those that have two clusters or more to add. */
  lemma WriteKeepsFileExactly(s: State, ch: seq<nat>, n: nat)
    requires Writable(s, ch, 0) && WriteSteps(s, n).Some?
    ensures KeepsFile(s, ch, n) <==>
      !Vain(s, |ch|, n) || if s.hint == 0 then |ch| < n else s.hint !in ch[..|ch| - 1]
  {
    WriteLeavesOwnChain(s, ch, n);
    var fat, last := WriteSteps(s, n).value.fat, ch[|ch| - 1];
    if !Vain(s, |ch|, n) {
      assert ch <= ch + Fresh(s.fat, SearchStart(s.hint), Needed(|ch|, 0, n));
    } else if s.hint == 0 {
      if n == |ch| {
        forall all | ch <= all
          ensures !IsChain(fat, all)
        {
          ZeroLosesFile(fat, ch, all);
        }
      }
    } else if s.hint in ch[..|ch| - 1] {
      var j :| 0 <= j < |ch| - 1 && ch[j] == s.hint;
      forall all | ch <= all
        ensures !IsChain(fat, all)
      {
        CutLosesFile(fat, ch, j, all);
      }
    } else if s.hint == last {
      assert ch[..|ch| - 1 + 1] == ch;
    } else {
      assert ch <= ch + [s.hint];
    }
  }
}
