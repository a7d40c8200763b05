/** Chains as section "FAT Data Structure" of Microsoft's FAT32 File System Specification, version 1.03, has them,
    and what the writer of kernel/filesystems/fat.c does to them.

    To the specification the top four bits of an entry mean nothing and end marks begin at 0x0ffffff8.  The
    writer reads all 32 bits and takes entries from 0x0fffffff on for ends (line 97): it runs past the lower
    end marks, and stops at a link whose reserved bits are not zero. */
module SpecChains {
  import opened Basics
  import opened Chains
  import opened VainWrites

  const SPEC_END := 0x0fff_fff8
  const RESERVED := 0x1000_0000    // the lowest of the four reserved bits

  /** An entry without the reserved bits. */
  function Masked(x: nat): (r: nat)
    ensures r < RESERVED && (x < RESERVED ==> r == x)
  {
    if x < RESERVED then x else Masked(x - RESERVED)
  }

  lemma {:induction false} MaskedIs(x: nat, k: nat)
    requires x < RESERVED
    ensures Masked(x + k * RESERVED) == x
    decreases k
  {
    if k != 0 {
      MaskedIs(x, k - 1);
    }
  }

  lemma {:induction false} MaskedIsRemainder(x: nat)
    ensures Masked(x) == x % 0x1000_0000
    decreases x
  {
    if 0x1000_0000 <= x {
      MaskedIsRemainder(x - 0x1000_0000);
    }
  }

  /** Only the specification's end marks end a chain of the specification. */
  lemma SpecEndMarks(fat: seq<nat>, c: nat)
    requires 0 < c < |fat| <= 0x0fff_fff8
    ensures IsSpecChain(fat, [c]) <==> fat[c] % 0x1000_0000 >= 0x0fff_fff8
  {
    MaskedIsRemainder(fat[c]);
  }

  lemma EndMarkMasked()
    ensures Masked(NONE) == END
  {
    MaskedIs(END, 15);
  }

  /** The table without the reserved bits. */
  function SpecView(fat: seq<nat>): (r: seq<nat>)
    ensures |r| == |fat|
  {
    seq(|fat|, i requires 0 <= i < |fat| => Masked(fat[i]))
  }

  ghost predicate IsSpecChain(fat: seq<nat>, ch: seq<nat>) {
    ChainTo(SpecView(fat), ch, SPEC_END)
  }

  /** The first place of the chain whose entry the writer takes for an end, or the chain's length. */
  function WriterEnd(fat: seq<nat>, ch: seq<nat>): (d: nat)
    requires forall i :: 0 <= i < |ch| ==> ch[i] < |fat|
    ensures d <= |ch| && forall i :: 0 <= i < d ==> fat[ch[i]] < END
    ensures d < |ch| ==> fat[ch[d]] >= END
  {
    if ch == [] || fat[ch[0]] >= END then 0 else 1 + WriterEnd(fat, ch[1..])
  }

  /** Before the writer's end both views agree. */
  lemma SameLink(fat: seq<nat>, ch: seq<nat>, i: nat)
    requires IsSpecChain(fat, ch) && i + 1 < |ch| && i < WriterEnd(fat, ch)
    ensures fat[ch[i]] == ch[i + 1]
  {
    assert SpecView(fat)[ch[i]] == ch[i + 1];
  }

  lemma {:induction false} SpecFollow(s: State, ch: seq<nat>, i: nat, n: nat)
    requires IsSpecChain(s.fat, ch) && i + n < |ch| && i + n <= WriterEnd(s.fat, ch) && s.cluster == ch[i]
    ensures WriteSteps(s, n) == Some(s.(cluster := ch[i + n])) && Trail(s, n) == ch[i..i + n]
    decreases n
  {
    if n != 0 {
      SameLink(s.fat, ch, i);
      SpecFollow(s.(cluster := ch[i + 1]), ch, i + 1, n - 1);
    }
  }

  /** The part of the chain that the writer sees, if it sees an end. */
  lemma SeenPart(fat: seq<nat>, ch: seq<nat>)
    requires IsSpecChain(fat, ch) && WriterEnd(fat, ch) < |ch|
    ensures IsChain(fat, ch[..WriterEnd(fat, ch) + 1])
  {
    forall i | 0 <= i < WriterEnd(fat, ch)
      ensures fat[ch[i]] == ch[i + 1]
    {
      SameLink(fat, ch, i);
    }
  }

  /** A chain of which the writer sees no end: a write goes through as long as it has no more blocks than the
      chain has clusters, and changes no entry.  The turn after that would use the end mark as a cluster
      number. */
  lemma {:induction false} LowEndWrites(s: State, ch: seq<nat>, i: nat, n: nat)
    requires IsSpecChain(s.fat, ch) && WriterEnd(s.fat, ch) == |ch| && i < |ch| && s.cluster == ch[i]
    ensures WriteSteps(s, n).Some? <==> i + n <= |ch|
    ensures i + n <= |ch| ==>
      && WriteSteps(s, n).value.fat == s.fat && WriteSteps(s, n).value.hint == s.hint
      && Trail(s, n) == ch[i..i + n]
    decreases n
  {
    if n != 0 {
      if i + 1 < |ch| {
        SameLink(s.fat, ch, i);
        LowEndWrites(s.(cluster := ch[i + 1]), ch, i + 1, n - 1);
      } else {
        assert WriteStep(s) == Some(s.(cluster := s.fat[ch[i]]));
      }
    }
  }

  // ----- growth

  /** The write did what it should to a chain of the specification: the clusters added were free to the writer
      (entries of 0, reserved bits included). */
  ghost predicate SpecGrownBy(s: State, ch: seq<nat>, n: nat, added: seq<nat>) {
    WriteSteps(s, n).Some? && Extends(s, ch, n, added) && IsSpecChain(WriteSteps(s, n).value.fat, ch + added)
  }

  ghost predicate SpecGrows(s: State, ch: seq<nat>, n: nat) {
    exists added :: SpecGrownBy(s, ch, n, added)
  }

  ghost predicate SpecWritable(s: State, ch: seq<nat>) {
    IsSpecChain(s.fat, ch) && s.cluster == ch[0] && s.fat[0] != 0
  }

  lemma InsideGrows(s: State, ch: seq<nat>, n: nat)
    requires SpecWritable(s, ch) && n < |ch| && n <= WriterEnd(s.fat, ch)
    ensures SpecGrows(s, ch, n)
  {
    SpecFollow(s, ch, 0, n);
    assert ch + [] == ch;
    assert SpecGrownBy(s, ch, n, []);
  }

  lemma CannotGrow(fat: seq<nat>, ch: seq<nat>, added: seq<nat>, mark: nat)
    requires ChainTo(fat, ch, mark)
    ensures added == [] || !ChainTo(fat, ch + added, mark)
  {
    var all := ch + added;
    assert all[|ch| - 1] == ch[|ch| - 1];
    assert added != [] ==> all[|ch|] == added[0];
  }

  lemma LowEndGrowsNot(s: State, ch: seq<nat>, n: nat)
    requires SpecWritable(s, ch) && WriterEnd(s.fat, ch) == |ch| <= n
    ensures !SpecGrows(s, ch, n)
  {
    LowEndWrites(s, ch, 0, n);
    if n == |ch| {
      forall added
        ensures !SpecGrownBy(s, ch, n, added)
      {
        CannotGrow(SpecView(s.fat), ch, added, SPEC_END);
      }
    }
  }

  /** A chain to the writer is one to the specification. */
  lemma ChainToSpec(fat: seq<nat>, ch: seq<nat>)
    requires IsChain(fat, ch) && |fat| <= SPEC_END
    requires Masked(fat[ch[|ch| - 1]]) >= SPEC_END
    ensures IsSpecChain(fat, ch)
  {
    forall i | 0 <= i < |ch| - 1
      ensures SpecView(fat)[ch[i]] == ch[i + 1]
    {
      assert fat[ch[i]] == ch[i + 1];
    }
  }

  /** The last cluster that is appended carries the writer's own end mark. */
  lemma {:induction false} AddedEnds(fat: seq<nat>, c: nat, added: seq<nat>)
    requires c < |fat| && added != [] && forall i :: 0 <= i < |added| ==> added[i] < |fat|
    requires Distinct(added)
    ensures AppendAll(fat, c, added)[added[|added| - 1]] == NONE
    decreases |added|
  {
    if |added| == 1 {
      assert AppendAll(fat, c, added) == AppendAll(Append(fat, c, added[0]), added[0], []);
    } else {
      AddedEnds(Append(fat, c, added[0]), added[0], added[1..]);
    }
  }

  lemma GrownMark(s: State, ch: seq<nat>, n: nat)
    requires Writable(s, ch, 0) && |ch| <= n && Enough(s, |ch|, 0, n)
    ensures var added := Fresh(s.fat, SearchStart(s.hint), Needed(|ch|, 0, n));
      WriteSteps(s, n).Some? && |WriteSteps(s, n).value.fat| == |s.fat| && added != []
      && added[|added| - 1] < |s.fat| && WriteSteps(s, n).value.fat[added[|added| - 1]] == NONE
  {
    WriteStepsLink(s, ch, 0, n);
    FreshAreEnough(s.fat, SearchStart(s.hint), Needed(|ch|, 0, n));
    FreshAreFree(s.fat, SearchStart(s.hint), Needed(|ch|, 0, n));
    AddedEnds(s.fat, ch[|ch| - 1], Fresh(s.fat, SearchStart(s.hint), Needed(|ch|, 0, n)));
  }

  lemma SeenEndGrown(s: State, ch: seq<nat>, n: nat)
    requires Writable(s, ch, 0) && |s.fat| <= SPEC_END && |ch| <= n && Enough(s, |ch|, 0, n)
    ensures SpecGrows(s, ch, n)
  {
    var added := Fresh(s.fat, SearchStart(s.hint), Needed(|ch|, 0, n));
    GrownMark(s, ch, n);
    WriteGrowsExactlySo(s, ch, n);
    EndMarkMasked();
    assert (ch + added)[|ch + added| - 1] == added[|added| - 1];
    ChainToSpec(WriteSteps(s, n).value.fat, ch + added);
    assert SpecGrownBy(s, ch, n, added);
  }

  lemma WriteGrowsExactlySo(s: State, ch: seq<nat>, n: nat)
    requires Writable(s, ch, 0) && Enough(s, |ch|, 0, n)
    ensures GrownBy(s, ch, n, Fresh(s.fat, SearchStart(s.hint), Needed(|ch|, 0, n)))
  {
    WriteGrows(s, ch, n);
  }

  lemma SeenEndGrows(s: State, ch: seq<nat>, n: nat)
    requires SpecWritable(s, ch) && WriterEnd(s.fat, ch) == |ch| - 1 && |ch| <= n
    ensures SpecGrows(s, ch, n) <==> Enough(s, |ch|, 0, n)
  {
    SeenPart(s.fat, ch);
    assert ch[..|ch| - 1 + 1] == ch;
    if Enough(s, |ch|, 0, n) {
      SeenEndGrown(s, ch, n);
    }
    if added :| SpecGrownBy(s, ch, n, added) {
      GrownNeedsEnough(s, ch, n, added, SpecView(WriteSteps(s, n).value.fat), SPEC_END);
    }
  }

  /** The one write that cuts the chain and joins it again: it comes to the last cluster but one, finds nothing
      free, and the hint is the last cluster. */
  ghost predicate Rejoins(s: State, ch: seq<nat>, n: nat, d: nat) {
    d + 1 == n == |ch| - 1 && FreeFrom(s.fat, SearchStart(s.hint)) == {} && s.hint == ch[n]
  }

  /** The link after place `d` is still what the chain says. */
  lemma GrownKeepsLink(s: State, ch: seq<nat>, n: nat, added: seq<nat>, d: nat)
    requires SpecGrownBy(s, ch, n, added) && d + 1 < |ch|
    ensures var fat := WriteSteps(s, n).value.fat;
      ch[d] < |fat| && Masked(fat[ch[d]]) == ch[d + 1] && 0 < ch[d + 1] < |fat| <= SPEC_END
  {
    var fat := WriteSteps(s, n).value.fat;
    assert (ch + added)[d] == ch[d] && (ch + added)[d + 1] == ch[d + 1];
    assert SpecView(fat)[ch[d]] == ch[d + 1];
  }

  /** A link that the writer takes for an end is cut by a write that comes to it and finds a cluster. */
  lemma CutByCluster(s: State, ch: seq<nat>, n: nat, added: seq<nat>, d: nat)
    requires SpecWritable(s, ch) && d == WriterEnd(s.fat, ch) && d + 1 < |ch| && d < n
    requires FreeFrom(s.fat, SearchStart(s.hint)) != {}
    ensures !SpecGrownBy(s, ch, n, added)
  {
    if SpecGrownBy(s, ch, n, added) {
      SeenPart(s.fat, ch);
      var seen, fat := ch[..d + 1], WriteSteps(s, n).value.fat;
      var linked := Fresh(s.fat, SearchStart(s.hint), Needed(|seen|, 0, n));
      WriteGrowsAsFar(s, seen, n);
      FreshAreFree(s.fat, SearchStart(s.hint), Needed(|seen|, 0, n));
      NotEmpty(FreeFrom(s.fat, SearchStart(s.hint)));
      assert (seen + linked)[d] == ch[d] && (seen + linked)[d + 1] == linked[0];
      assert fat[ch[d]] == linked[0];
      SameSize(s, n);
      ChainIsTaken(SpecView(s.fat), ch, SPEC_END);
      assert linked[0] != ch[d + 1];
      GrownKeepsLink(s, ch, n, added, d);
    }
  }

  lemma NotEmpty(a: set<nat>)
    requires a != {}
    ensures 0 < |a|
  {
  }

  lemma EndMarkIsLast(fat: seq<nat>, ch: seq<nat>, mark: nat, i: nat)
    requires ChainTo(fat, ch, mark) && i < |ch| && fat[ch[i]] >= mark
    ensures i == |ch| - 1
  {
    ChainTail(fat, ch, mark, i);
    EndsHere(fat, ch[i..], mark);
  }

  /** A chain that goes through the writer's new end goes to the hint and ends there. */
  lemma EndsAtHint(fat: seq<nat>, c: nat, h: nat, all: seq<nat>, d: nat)
    requires c < |fat| && 0 < h < |fat| && IsSpecChain(Linked(fat, c, h), all) && d + 1 < |all| && all[d] == c
    ensures all[d + 1] == h && |all| == d + 2
  {
    var view := SpecView(Linked(fat, c, h));
    EndMarkMasked();
    assert view[all[d]] == all[d + 1];
    EndMarkIsLast(view, all, SPEC_END, d + 1);
  }

  lemma CutByHint(s: State, ch: seq<nat>, n: nat, added: seq<nat>, d: nat)
    requires SpecWritable(s, ch) && d == WriterEnd(s.fat, ch) && d + 1 < |ch| && d < n && 0 < s.hint
    requires FreeFrom(s.fat, SearchStart(s.hint)) == {} && SpecGrownBy(s, ch, n, added)
    ensures Rejoins(s, ch, n, d)
  {
    SeenPart(s.fat, ch);
    VainWriteLeaves(s, ch[..d + 1], n);
    assert (ch + added)[d] == ch[d] && (ch + added)[d + 1] == ch[d + 1];
    EndsAtHint(s.fat, ch[d], s.hint, ch + added, d);
  }

  lemma CutByZero(s: State, ch: seq<nat>, n: nat, added: seq<nat>, d: nat)
    requires SpecWritable(s, ch) && d == WriterEnd(s.fat, ch) && d + 1 < |ch| && d < n && s.hint == 0
    requires FreeFrom(s.fat, SearchStart(s.hint)) == {}
    ensures !SpecGrownBy(s, ch, n, added)
  {
    if SpecGrownBy(s, ch, n, added) {
      SeenPart(s.fat, ch);
      ZeroHintLeaves(s, ch[..d + 1], n);
      EndMarkMasked();
      GrownKeepsLink(s, ch, n, added, d);
    }
  }

  lemma RejoinGrows(s: State, ch: seq<nat>, n: nat, d: nat)
    requires SpecWritable(s, ch) && d == WriterEnd(s.fat, ch) && Rejoins(s, ch, n, d)
    ensures SpecGrows(s, ch, n)
  {
    SeenPart(s.fat, ch);
    var seen := ch[..d + 1];
    ReachEnd(s, seen, 0, n);
    NothingFree(s.fat, SearchStart(s.hint));
    VainStep(s.(cluster := ch[d]));
    var fat := Linked(s.fat, ch[d], s.hint);
    assert WriteSteps(s, n) == WriteSteps(s.(cluster := ch[d]), 1) == Some(State(fat, s.hint, s.hint));
    ChainsAreAcyclic(SpecView(s.fat), ch, SPEC_END);
    EndMarkMasked();
    forall i | 0 <= i < |ch| - 1
      ensures SpecView(fat)[ch[i]] == ch[i + 1]
    {
      assert SpecView(s.fat)[ch[i]] == ch[i + 1];
    }
    assert ch + [] == ch;
    assert SpecGrownBy(s, ch, n, []);
  }

  /** Growth of the specification's chains, exactly.  A write that stays inside the chain must not pass an entry
      that the writer takes for an end (but for the one that joins the chain again); one that grows the chain
      needs the writer to see its end there, and enough free clusters. */
  lemma SpecWriteGrowsExactly(s: State, ch: seq<nat>, n: nat)
    requires SpecWritable(s, ch)
    ensures var d := WriterEnd(s.fat, ch);
      SpecGrows(s, ch, n) <==>
        if n < |ch| then n <= d || Rejoins(s, ch, n, d) else d == |ch| - 1 && Enough(s, |ch|, 0, n)
  {
    var d := WriterEnd(s.fat, ch);
    if n < |ch| && n <= d {
      InsideGrows(s, ch, n);
    } else if d == |ch| {
      LowEndGrowsNot(s, ch, n);
    } else if d == |ch| - 1 {
      SeenEndGrows(s, ch, n);
    } else {
      if Rejoins(s, ch, n, d) {
        RejoinGrows(s, ch, n, d);
      }
      if added :| SpecGrownBy(s, ch, n, added) {
        if FreeFrom(s.fat, SearchStart(s.hint)) != {} {
          CutByCluster(s, ch, n, added, d);
        } else if s.hint == 0 {
          CutByZero(s, ch, n, added, d);
        } else {
          CutByHint(s, ch, n, added, d);
        }
      }
    }
  }

  // ----- other files

  /** Non-interference with the specification's chains, exactly as with the writer's. */
  lemma SpecSparedExactly(s: State, ch: seq<nat>, n: nat, other: seq<nat>)
    requires Writable(s, ch, 0) && WriteSteps(s, n).Some?
    requires IsSpecChain(s.fat, other) && Disjoint(ch, other)
    ensures var s' := WriteSteps(s, n).value;
      IsSpecChain(s'.fat, other) && Disjoint(Trail(s, n) + [s'.cluster], other) <==>
      Needed(|ch|, 0, n) == 0 || FreeFrom(s.fat, SearchStart(s.hint)) != {} || s.hint !in other
  {
    var s' := WriteSteps(s, n).value;
    ChainIsTaken(SpecView(s.fat), other, SPEC_END);
    WriteAvoidsAll(s, ch, n, other);
    SameSize(s, n);
    if AvoidsAll(s, Needed(|ch|, 0, n), other) {
      forall j | 0 <= j < |other|
        ensures SpecView(s'.fat)[other[j]] == SpecView(s.fat)[other[j]]
      {
        assert Untouched(s, n, other[j]);
      }
      assert IsSpecChain(s'.fat, other);
      assert forall j :: 0 <= j < |other| ==> Untouched(s, n, other[j]);
    } else {
      assert (Trail(s, n) + [s'.cluster])[n] == s'.cluster;
    }
  }
}
