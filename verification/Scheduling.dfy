/** Fairness and context preservation of `schedule` in kernel/proc/scheduler.c. */
module Scheduling {
  import opened Processes

  // ----- the live pids in order

  ghost function LiveList(slots: seq<Slot>, lo: nat): (r: seq<nat>)
    decreases |slots| - lo
  {
    if lo >= |slots| then []
    else (if slots[lo].Live? then [lo] else []) + LiveList(slots, lo + 1)
  }

  lemma {:induction false} LiveListMembers(slots: seq<Slot>, lo: nat, p: nat)
    ensures p in LiveList(slots, lo) <==> lo <= p < |slots| && slots[p].Live?
    decreases |slots| - lo
  {
    if lo < |slots| {
      LiveListMembers(slots, lo + 1, p);
    }
  }

  ghost predicate Ascending(l: seq<nat>) {
    forall i, j :: 0 <= i < j < |l| ==> l[i] < l[j]
  }

  lemma {:induction false} LiveListAscends(slots: seq<Slot>, lo: nat)
    ensures Ascending(LiveList(slots, lo))
    decreases |slots| - lo
  {
    if lo < |slots| {
      var rest := LiveList(slots, lo + 1);
      LiveListAscends(slots, lo + 1);
      forall i | 0 <= i < |rest|
        ensures lo < rest[i]
      {
        LiveListMembers(slots, lo + 1, rest[i]);
      }
      if slots[lo].Live? {
        assert LiveList(slots, lo) == [lo] + rest;
      } else {
        assert LiveList(slots, lo) == rest;
      }
    }
  }

  lemma LiveListIsSorted(slots: seq<Slot>)
    ensures Ascending(LiveList(slots, 0))
    ensures forall p: nat :: p in LiveList(slots, 0) <==> p < |slots| && slots[p].Live?
  {
    LiveListAscends(slots, 0);
    forall p: nat
      ensures p in LiveList(slots, 0) <==> p < |slots| && slots[p].Live?
    {
      LiveListMembers(slots, 0, p);
    }
  }

  ghost function LiveAbove(slots: seq<Slot>, lo: nat): set<nat> {
    set p: nat | lo <= p < |slots| && slots[p].Live?
  }

  lemma {:induction false} LiveListLength(slots: seq<Slot>, lo: nat)
    ensures |LiveList(slots, lo)| == |LiveAbove(slots, lo)|
    decreases |slots| - lo
  {
    if lo >= |slots| {
      assert LiveAbove(slots, lo) == {};
    } else {
      LiveListLength(slots, lo + 1);
      if slots[lo].Live? {
        assert LiveAbove(slots, lo) == LiveAbove(slots, lo + 1) + {lo};
      } else {
        assert LiveAbove(slots, lo) == LiveAbove(slots, lo + 1);
      }
    }
  }

  /** The place after `i` on a ring of `n`. */
  function After(n: nat, i: nat): nat {
    if i + 1 < n then i + 1 else 0
  }

  lemma NextIsAfter(slots: seq<Slot>, i: nat)
    requires i < |LiveList(slots, 0)|
    ensures exists q :: 0 <= q < |slots| && slots[q].Live?
    ensures var l := LiveList(slots, 0); NextLive(slots, l[i]) == l[After(|l|, i)]
  {
    var l := LiveList(slots, 0);
    LiveListIsSorted(slots);
    assert l[i] in l && l[After(|l|, i)] in l;
    var p := NextLive(slots, l[i]);
    assert p in l;
    var k :| 0 <= k < |l| && l[k] == p;
    var a := After(|l|, i);
    assert a < |l|;
  }

  // ----- consecutive ticks

  /** The pids that consecutive ticks dispatch. */
  ghost function Dispatches(w: World, frames: seq<Frame>): (r: seq<nat>)
    requires WorldOk(w)
    ensures |r| == |frames|
    decreases |frames|
  {
    if frames == [] then []
    else
      TickKeepsOk(w, frames[0]);
      [TickW(w, frames[0]).0.cpid] + Dispatches(TickW(w, frames[0]).0, frames[1..])
  }

  lemma {:induction false} SameLiveSameList(a: seq<Slot>, b: seq<Slot>, lo: nat)
    requires |a| == |b| && forall p :: 0 <= p < |a| ==> (a[p].Live? <==> b[p].Live?)
    ensures LiveList(a, lo) == LiveList(b, lo)
    decreases |a| - lo
  {
    if lo < |a| {
      SameLiveSameList(a, b, lo + 1);
    }
  }

  /** `k` places after `i` on a ring of `n`. */
  function Around(n: nat, i: nat, k: nat): nat {
    if i + k < n then i + k else i + k - n
  }

  lemma {:induction false} DispatchesGoRound(w: World, frames: seq<Frame>, l: seq<nat>, i: nat, k: nat)
    requires WorldOk(w) && w.active != 0 && w.enabled && l == LiveList(w.slots, 0)
    requires i < |l| && k < |frames| && k < |l|
    requires (SomeoneLives(w); NextLive(w.slots, w.cpid) == l[i])
    ensures Around(|l|, i, k) < |l| && Dispatches(w, frames)[k] == l[Around(|l|, i, k)]
    decreases k
  {
    SomeoneLives(w);
    var w' := TickW(w, frames[0]).0;
    TickKeepsOk(w, frames[0]);
    assert w'.cpid == l[i];
    if 0 < k {
      SaveKeepsLive(w.slots, w.cpid, frames[0]);
      SameLiveSameList(w.slots, w'.slots, 0);
      SomeoneLives(w');
      NextIsAfter(w'.slots, i);
      DispatchesGoRound(w', frames[1..], l, After(|l|, i), k - 1);
      assert Around(|l|, After(|l|, i), k - 1) == Around(|l|, i, k);
    }
  }

  lemma SaveKeepsLive(slots: seq<Slot>, c: nat, regs: Frame)
    ensures var s := Save(slots, c, regs);
      |s| == |slots| && forall p :: 0 <= p < |s| ==> (s[p].Live? <==> slots[p].Live?)
  {
  }

  ghost predicate RoundAt(l: seq<nat>, i: nat, d: seq<nat>, k: nat)
    requires k < |d|
  {
    Around(|l|, i, k) < |l| && d[k] == l[Around(|l|, i, k)]
  }

  /** `d` goes once round the ring `l` from place `i` on. */
  ghost predicate GoesRound(l: seq<nat>, i: nat, d: seq<nat>) {
    i < |l| == |d| && forall k :: 0 <= k < |d| ==> RoundAt(l, i, d, k)
  }

  lemma TicksGoRound(w: World, frames: seq<Frame>) returns (i: nat)
    requires WorldOk(w) && w.active != 0 && w.enabled && |frames| == |LivePids(w.slots)|
    ensures exists q :: 0 <= q < |w.slots| && w.slots[q].Live?
    ensures GoesRound(LiveList(w.slots, 0), i, Dispatches(w, frames))
    ensures LiveList(w.slots, 0)[i] == NextLive(w.slots, w.cpid)
  {
    SomeoneLives(w);
    LiveListHoldsThePids(w.slots);
    var l, d := LiveList(w.slots, 0), Dispatches(w, frames);
    assert NextLive(w.slots, w.cpid) in l;
    i :| 0 <= i < |l| && l[i] == NextLive(w.slots, w.cpid);
    forall k | 0 <= k < |d|
      ensures RoundAt(l, i, d, k)
    {
      DispatchesGoRound(w, frames, l, i, k);
    }
  }

  /** Round-robin fairness: as many consecutive ticks as there are live processes dispatch each of them
      exactly once, starting with the next live pid and in cyclic pid order. */
  lemma RoundRobin(w: World, frames: seq<Frame>)
    requires WorldOk(w) && w.active != 0 && w.enabled && |frames| == |LivePids(w.slots)|
    ensures exists q :: 0 <= q < |w.slots| && w.slots[q].Live?
    ensures var d := Dispatches(w, frames);
      && d[0] == NextLive(w.slots, w.cpid)
      && (forall k :: 0 <= k < |d| - 1 ==> d[k + 1] == NextLive(w.slots, d[k]))
      && (forall j, k :: 0 <= j < k < |d| ==> d[j] != d[k])
      && (forall p :: p in d <==> p in LivePids(w.slots))
  {
    var i := TicksGoRound(w, frames);
    var d := Dispatches(w, frames);
    assert RoundAt(LiveList(w.slots, 0), i, d, 0);
    LiveListHoldsThePids(w.slots);
    LiveListIsSorted(w.slots);
    RoundFollowsNext(w.slots, i, d);
    GoingRoundMeetsAll(LiveList(w.slots, 0), i, d);
  }

  lemma RoundFollowsNext(slots: seq<Slot>, i: nat, d: seq<nat>)
    requires GoesRound(LiveList(slots, 0), i, d)
    requires exists q :: 0 <= q < |slots| && slots[q].Live?
    ensures forall k :: 0 <= k < |d| - 1 ==> d[k + 1] == NextLive(slots, d[k])
  {
    forall k | 0 <= k < |d| - 1
      ensures d[k + 1] == NextLive(slots, d[k])
    {
      assert RoundAt(LiveList(slots, 0), i, d, k) && RoundAt(LiveList(slots, 0), i, d, k + 1);
      NextIsAfter(slots, Around(|d|, i, k));
      assert After(|d|, Around(|d|, i, k)) == Around(|d|, i, k + 1);
    }
  }

  lemma LiveListHoldsThePids(slots: seq<Slot>)
    ensures |LiveList(slots, 0)| == |LivePids(slots)|
    ensures forall p: nat :: p in LiveList(slots, 0) <==> p in LivePids(slots)
  {
    LiveListIsSorted(slots);
    LiveListLength(slots, 0);
    assert LivePids(slots) == LiveAbove(slots, 0);
  }

  /** Going once round a ring of different values meets each of them once. */
  lemma GoingRoundMeetsAll(l: seq<nat>, i: nat, d: seq<nat>)
    requires GoesRound(l, i, d) && Ascending(l)
    ensures forall j, k :: 0 <= j < k < |d| ==> d[j] != d[k]
    ensures forall p :: p in d <==> p in l
  {
    forall j, k | 0 <= j < k < |d|
      ensures d[j] != d[k]
    {
      assert RoundAt(l, i, d, j) && RoundAt(l, i, d, k);
    }
    forall p | p in l
      ensures p in d
    {
      var j :| 0 <= j < |l| && l[j] == p;
      var k := if i <= j then j - i else j + |l| - i;
      assert RoundAt(l, i, d, k);
    }
    forall p | p in d
      ensures p in l
    {
      var k :| 0 <= k < |d| && d[k] == p;
      assert RoundAt(l, i, d, k);
    }
  }

  // ----- context preservation

  /** A run as its sequence of states. */
  ghost predicate Trace(ws: seq<World>, es: seq<Event>) {
    && |ws| == |es| + 1
    && (forall i {:trigger WorldOk(ws[i])} :: 0 <= i < |ws| ==> WorldOk(ws[i]))
    && forall i :: 0 <= i < |es| ==> TraceStep(ws, es, i)
  }

  ghost predicate TraceStep(ws: seq<World>, es: seq<Event>, i: nat)
    requires |ws| == |es| + 1 && i < |es| && WorldOk(ws[i])
  {
    Can(ws[i], es[i]) && ws[i + 1] == StepW(ws[i], es[i])
  }

  /** The event takes the processor from `p`: a tick with scheduling on while `p` is current and live. */
  ghost predicate Preempts(w: World, e: Event, p: nat) {
    e.Tick? && w.enabled && w.cpid == p && p in LivePids(w.slots)
  }

  lemma TickLeavesFrame(w: World, regs: Frame, p: nat)
    requires WorldOk(w) && p in LivePids(w.slots) && !(w.enabled && w.cpid == p)
    ensures p in LivePids(TickW(w, regs).0.slots) && TickW(w, regs).0.slots[p].proc.frame == w.slots[p].proc.frame
  {
    TickKeepsOk(w, regs);
    assert w.cpid != p ==> Save(w.slots, w.cpid, regs)[p] == w.slots[p];
  }

  lemma BirthLeavesFrame(w: World, w': World, q: nat, p: nat)
    requires Born(w, w', q) && p in LivePids(w.slots)
    ensures p in LivePids(w'.slots) && w'.slots[p] == w.slots[p]
  {
  }

  lemma DeathLeavesFrame(w: World, w': World, q: nat, p: nat)
    requires Gone(w, w', q) && p in LivePids(w.slots) && p != q
    ensures p in LivePids(w'.slots) && w'.slots[p] == w.slots[p]
  {
  }

  /** An event that neither preempts nor ends a live process leaves its saved frame. */
  lemma FrameStays(w: World, e: Event, p: nat)
    requires WorldOk(w) && Can(w, e) && p in LivePids(w.slots)
    requires !Preempts(w, e, p) && e != Exit(p)
    ensures p in LivePids(StepW(w, e).slots)
    ensures StepW(w, e).slots[p].proc.frame == w.slots[p].proc.frame
  {
    match e
    case Tick(regs) =>
      TickLeavesFrame(w, regs, p);
    case Fork(birth) =>
      ForkKeepsOk(w, birth);
      BirthLeavesFrame(w, ForkW(w, birth).0, ForkW(w, birth).1, p);
    case Exit(q) =>
      ExitKeepsOk(w, q);
      DeathLeavesFrame(w, ExitW(w, q), q, p);
    case Memory(op) =>
  }

  /** Event `k` of the run neither takes the processor from `p` nor ends it. */
  ghost predicate Spares(ws: seq<World>, es: seq<Event>, k: nat, p: nat)
    requires |ws| == |es| + 1 && k < |es|
  {
    !Preempts(ws[k], es[k], p) && es[k] != Exit(p)
  }

  lemma {:induction false} FrameWaits(ws: seq<World>, es: seq<Event>, i: nat, j: nat, p: nat)
    requires Trace(ws, es) && i <= j < |ws| && p in LivePids(ws[i].slots)
    requires forall k :: i <= k < j ==> Spares(ws, es, k, p)
    ensures p in LivePids(ws[j].slots) && ws[j].slots[p].proc.frame == ws[i].slots[p].proc.frame
    decreases j - i
  {
    if i < j {
      assert TraceStep(ws, es, i) && Spares(ws, es, i, p);
      FrameStays(ws[i], es[i], p);
      FrameWaits(ws, es, i + 1, j, p);
    }
  }

  /** Tick `j` of the run gives the processor to `p`. */
  ghost predicate Dispatched(ws: seq<World>, es: seq<Event>, j: nat, p: nat)
    requires Trace(ws, es) && j < |es|
  {
    es[j].Tick? && ws[j].enabled && ws[j].active != 0 && ws[j + 1].cpid == p
  }

  /** A tick of the run that dispatches nobody returns exactly the frame it was given and changes nothing. */
  lemma UndispatchedTick(ws: seq<World>, es: seq<Event>, j: nat)
    requires Trace(ws, es) && j < |es| && es[j].Tick? && forall p :: !Dispatched(ws, es, j, p)
    ensures ws[j + 1] == ws[j] && TickW(ws[j], es[j].regs).1 == es[j].regs
  {
    assert TraceStep(ws, es, j) && !Dispatched(ws, es, j, ws[j + 1].cpid);
    IdleTick(ws[j], es[j].regs);
  }

  lemma DispatchReturns(w: World, regs: Frame, p: nat)
    requires WorldOk(w) && w.enabled && w.active != 0 && TickW(w, regs).0.cpid == p
    ensures p in LivePids(w.slots)
    ensures TickW(w, regs).1 == if w.cpid == p then regs else w.slots[p].proc.frame
  {
    SomeoneLives(w);
  }

  lemma ReturnsSavedFrame(ws: seq<World>, es: seq<Event>, i: nat, j: nat, p: nat)
    requires Trace(ws, es) && i <= j < |es| && p in LivePids(ws[i].slots) && Dispatched(ws, es, j, p)
    requires forall k :: i <= k <= j ==> Spares(ws, es, k, p)
    ensures TickW(ws[j], es[j].regs).1 == ws[i].slots[p].proc.frame
  {
    FrameWaits(ws, es, i, j, p);
    assert TraceStep(ws, es, j) && Spares(ws, es, j, p);
    DispatchReturns(ws[j], es[j].regs, p);
  }

  /** Context preservation: whatever happens in between, a process that is dispatched again gets the frame
      it was last preempted with. */
  lemma ResumesWherePreempted(ws: seq<World>, es: seq<Event>, i: nat, j: nat, p: nat)
    requires Trace(ws, es) && i < j < |es| && p in LivePids(ws[i].slots)
    requires Preempts(ws[i], es[i], p) && Dispatched(ws, es, j, p)
    requires forall k :: i < k <= j ==> Spares(ws, es, k, p)
    ensures TickW(ws[j], es[j].regs).1 == es[i].regs
  {
    assert TraceStep(ws, es, i);
    SaveStores(ws[i], es[i].regs);
    ReturnsSavedFrame(ws, es, i + 1, j, p);
  }

  lemma SaveStores(w: World, regs: Frame)
    requires WorldOk(w) && w.enabled && w.cpid in LivePids(w.slots)
    ensures w.active != 0
    ensures w.cpid in LivePids(TickW(w, regs).0.slots) && TickW(w, regs).0.slots[w.cpid].proc.frame == regs
  {
    assert w.active != 0 by { assert LivePids(w.slots) != {}; }
    TickKeepsOk(w, regs);
  }

  /** Slot `p` is empty before and live after. */
  ghost predicate Creates(w: World, w': World, p: nat) {
    p < |w.slots| && w.slots[p].Empty? && p in LivePids(w'.slots)
  }

  lemma BirthFrame(ws: seq<World>, es: seq<Event>, i: nat, p: nat)
    requires Trace(ws, es) && i < |es| && es[i].Fork? && Creates(ws[i], ws[i + 1], p)
    ensures ws[i + 1].slots[p].proc.frame == FirstFrame(es[i].birth, ws[i + 1].slots[p].proc.stackBase)
  {
    assert TraceStep(ws, es, i);
  }

  /** Only a tick that dispatches moves the counter, and nothing turns scheduling on or off. */
  lemma CounterMoves(ws: seq<World>, es: seq<Event>, k: nat)
    requires Trace(ws, es) && k < |es|
    ensures ws[k + 1].enabled == ws[k].enabled
    ensures ws[k + 1].cpid == ws[k].cpid || Dispatched(ws, es, k, ws[k + 1].cpid)
    ensures !es[k].Tick? ==> ws[k + 1].cpid == ws[k].cpid
  {
    assert TraceStep(ws, es, k);
  }

  /** Without a dispatch of `p` in between, `p` does not become current. */
  lemma {:induction false} NotCurrent(ws: seq<World>, es: seq<Event>, i: nat, j: nat, p: nat)
    requires Trace(ws, es) && i <= j < |ws| && ws[i].cpid != p
    requires forall k :: i <= k < j ==> !Dispatched(ws, es, k, p)
    ensures ws[j].cpid != p
    decreases j
  {
    if i < j {
      NotCurrent(ws, es, i, j - 1, p);
      CounterMoves(ws, es, j - 1);
    }
  }

  lemma {:induction false} StaysCurrent(ws: seq<World>, es: seq<Event>, i: nat, j: nat)
    requires Trace(ws, es) && i <= j < |ws|
    ensures ws[j].enabled == ws[i].enabled
    ensures (forall k :: i <= k < j ==> !es[k].Tick?) ==> ws[j].cpid == ws[i].cpid
    decreases j
  {
    if i < j {
      StaysCurrent(ws, es, i, j - 1);
      CounterMoves(ws, es, j - 1);
    }
  }

  /** Event `i` creates process `p`, and tick `j` is the first to dispatch it. */
  ghost predicate FirstDispatch(ws: seq<World>, es: seq<Event>, i: nat, j: nat, p: nat) {
    && Trace(ws, es) && i < j < |es|
    && es[i].Fork? && Creates(ws[i], ws[i + 1], p)
    && Dispatched(ws, es, j, p)
    && forall k :: i < k < j ==> !Dispatched(ws, es, k, p) && es[k] != Exit(p)
  }

  /** While `p` is not current nothing preempts it. */
  lemma SparedWhileWaiting(ws: seq<World>, es: seq<Event>, i: nat, j: nat, p: nat)
    requires Trace(ws, es) && i <= j < |es| && ws[i].cpid != p && es[j].Tick?
    requires forall k :: i <= k < j ==> !Dispatched(ws, es, k, p) && es[k] != Exit(p)
    ensures forall k :: i <= k <= j ==> Spares(ws, es, k, p)
  {
    forall k | i <= k <= j
      ensures Spares(ws, es, k, p)
    {
      NotCurrent(ws, es, i, k, p);
    }
  }

  lemma FreshSlotStart(ws: seq<World>, es: seq<Event>, i: nat, j: nat, p: nat)
    requires FirstDispatch(ws, es, i, j, p) && ws[i].cpid != p
    ensures TickW(ws[j], es[j].regs).1 == FirstFrame(es[i].birth, ws[i + 1].slots[p].proc.stackBase)
  {
    CounterMoves(ws, es, i);
    SparedWhileWaiting(ws, es, i + 1, j, p);
    BirthFrame(ws, es, i, p);
    ReturnsSavedFrame(ws, es, i + 1, j, p);
  }

  /** No tick between events `i` and `k`. */
  ghost predicate Quiet(es: seq<Event>, i: nat, k: nat)
    requires k <= |es|
  {
    forall m :: i <= m < k ==> !es[m].Tick?
  }

  lemma QuietSpares(ws: seq<World>, es: seq<Event>, i: nat, k: nat, p: nat)
    requires Trace(ws, es) && i <= k <= |es| && Quiet(es, i, k) && p in LivePids(ws[i].slots)
    requires forall m :: i <= m < k ==> es[m] != Exit(p)
    ensures p in LivePids(ws[k].slots)
  {
    forall m | i <= m < k
      ensures Spares(ws, es, m, p)
    {
    }
    FrameWaits(ws, es, i, k, p);
  }

  /** A process created in the slot that is still current is current: the first tick saves its registers over
      the frame that creation built. */
  lemma ReusedSlotIsSaved(ws: seq<World>, es: seq<Event>, i: nat, k: nat, j: nat, p: nat)
    requires FirstDispatch(ws, es, i, j, p) && ws[i].cpid == p
    requires i < k <= j && es[k].Tick? && Quiet(es, i + 1, k)
    ensures Preempts(ws[k], es[k], p)
  {
    CounterMoves(ws, es, i);
    StaysCurrent(ws, es, i + 1, k);
    StaysCurrent(ws, es, k, j);
    QuietSpares(ws, es, i + 1, k, p);
  }

  lemma ReusedSlotWaits(ws: seq<World>, es: seq<Event>, i: nat, k: nat, j: nat, p: nat)
    requires FirstDispatch(ws, es, i, j, p) && i < k < j && Preempts(ws[k], es[k], p)
    ensures TickW(ws[j], es[j].regs).1 == es[k].regs
  {
    assert !Dispatched(ws, es, k, p);
    SaveStores(ws[k], es[k].regs);
    SparedWhileWaiting(ws, es, k + 1, j, p);
    ResumesWherePreempted(ws, es, k, j, p);
  }

  lemma ReusedSlotStart(ws: seq<World>, es: seq<Event>, i: nat, k: nat, j: nat, p: nat)
    requires FirstDispatch(ws, es, i, j, p) && ws[i].cpid == p
    requires i < k <= j && es[k].Tick? && Quiet(es, i + 1, k)
    ensures TickW(ws[j], es[j].regs).1 == es[k].regs
  {
    ReusedSlotIsSaved(ws, es, i, k, j, p);
    if k < j {
      ReusedSlotWaits(ws, es, i, k, j, p);
    } else {
      assert TraceStep(ws, es, j);
      DispatchReturns(ws[j], es[j].regs, p);
    }
  }

  /** The frame of the first dispatch, exactly: the one that creation built, unless the process was created in
      the slot that was current, whose process had exited; then the registers that the first tick `k` after
      the creation passes in. */
  lemma StartsWithFirstFrame(ws: seq<World>, es: seq<Event>, i: nat, k: nat, j: nat, p: nat)
    requires FirstDispatch(ws, es, i, j, p)
    requires i < k <= j && es[k].Tick? && Quiet(es, i + 1, k)
    ensures TickW(ws[j], es[j].regs).1 ==
      if ws[i].cpid == p then es[k].regs else FirstFrame(es[i].birth, ws[i + 1].slots[p].proc.stackBase)
    ensures ws[i].cpid != p ==> StartsAt(TickW(ws[j], es[j].regs).1, es[i].birth, ws[i + 1].slots[p].proc.stackBase)
  {
    FirstFrameStarts(es[i].birth, ws[i + 1].slots[p].proc.stackBase);
    if ws[i].cpid == p {
      ReusedSlotStart(ws, es, i, k, j, p);
    } else {
      FreshSlotStart(ws, es, i, j, p);
    }
  }

  /** When the current process was the last one created, exits, and another is created, the new one takes the
      current slot. */
  lemma ExitedSlotIsReused(w: World, b: Birth)
    requires WorldOk(w) && CanExit(w, w.cpid) && w.lapid == w.cpid && CanFork(ExitW(w, w.cpid))
    ensures ForkW(ExitW(w, w.cpid), b).1 == ExitW(w, w.cpid).cpid
  {
    assert ExitW(w, w.cpid).slots[w.cpid].Empty?;
  }

  // ----- where a tick saves

  /** The current slot is slot 0, for which nothing is saved, or a live process.  In any other state a tick that
      schedules saves through a null pointer in the source (lines 208-210) and nothing in the model. */
  ghost predicate CurrentOk(w: World) {
    w.cpid == 0 || w.cpid in LivePids(w.slots)
  }

  /** A tick that dispatches, or a creation in the current slot. */
  ghost predicate Restores(w: World, e: Event)
    requires WorldOk(w) && Can(w, e)
  {
    match e
    case Tick(_) => w.active != 0 && w.enabled
    case Fork(_) => NextEmpty(w.slots, w.lapid) == w.cpid
    case Exit(_) => false
    case Memory(_) => false
  }

  lemma TickCurrent(w: World, regs: Frame)
    requires WorldOk(w)
    ensures CurrentOk(TickW(w, regs).0) <==> CurrentOk(w) || (w.active != 0 && w.enabled)
  {
    TickKeepsOk(w, regs);
    if w.active != 0 && w.enabled {
      SomeoneLives(w);
    }
  }

  lemma BirthCurrent(w: World, w': World, pid: nat)
    requires Born(w, w', pid)
    ensures CurrentOk(w') <==> CurrentOk(w) || pid == w.cpid
  {
  }

  lemma DeathCurrent(w: World, w': World, pid: nat)
    requires WorldOk(w) && Gone(w, w', pid)
    ensures CurrentOk(w') <==> CurrentOk(w) && pid != w.cpid
  {
  }

  /** Exactly after which events the current slot is in order: it was before and the current process does not
      exit, or a dispatch or a creation restores it. */
  lemma StepCurrentExactly(w: World, e: Event)
    requires WorldOk(w) && Can(w, e)
    ensures CurrentOk(StepW(w, e)) <==> (CurrentOk(w) && e != Exit(w.cpid)) || Restores(w, e)
  {
    match e
    case Tick(regs) =>
      TickCurrent(w, regs);
    case Fork(birth) =>
      ForkKeepsOk(w, birth);
      BirthCurrent(w, ForkW(w, birth).0, ForkW(w, birth).1);
    case Exit(pid) =>
      ExitKeepsOk(w, pid);
      DeathCurrent(w, ExitW(w, pid), pid);
    case Memory(op) =>
  }

  /** Event `k` of the run ends the current process. */
  ghost predicate EndsCurrent(ws: seq<World>, es: seq<Event>, k: nat)
    requires |ws| == |es| + 1 && k < |es|
  {
    es[k] == Exit(ws[k].cpid)
  }

  ghost predicate RestoredAt(ws: seq<World>, es: seq<Event>, k: nat)
    requires Trace(ws, es) && k < |es|
  {
    TraceStep(ws, es, k) && Restores(ws[k], es[k])
  }

  /** Event `i` ended the current process and nothing has restored the slot since. */
  ghost predicate Dangling(ws: seq<World>, es: seq<Event>, i: nat, j: nat)
    requires Trace(ws, es) && i < j <= |es|
  {
    EndsCurrent(ws, es, i) && forall k :: i < k < j ==> !RestoredAt(ws, es, k)
  }

  lemma CurrentStep(ws: seq<World>, es: seq<Event>, j: nat)
    requires Trace(ws, es) && j < |es|
    ensures CurrentOk(ws[j + 1]) <==> (CurrentOk(ws[j]) && !EndsCurrent(ws, es, j)) || RestoredAt(ws, es, j)
  {
    assert TraceStep(ws, es, j);
    StepCurrentExactly(ws[j], es[j]);
  }

  lemma EndIsNoRestore(ws: seq<World>, es: seq<Event>, j: nat)
    requires Trace(ws, es) && j < |es| && EndsCurrent(ws, es, j)
    ensures !RestoredAt(ws, es, j)
  {
  }

  lemma DanglingGoesOn(ws: seq<World>, es: seq<Event>, i: nat, j: nat)
    requires Trace(ws, es) && i < j < |es|
    ensures Dangling(ws, es, i, j + 1) <==> Dangling(ws, es, i, j) && !RestoredAt(ws, es, j)
  {
  }

  /** Exactly when the current slot is out of order in a run that starts with it in order: the current process has
      exited, and since then no tick has dispatched and no creation has taken its slot. */
  lemma {:induction false} CurrentExactly(ws: seq<World>, es: seq<Event>, j: nat)
    requires Trace(ws, es) && CurrentOk(ws[0]) && j <= |es|
    ensures CurrentOk(ws[j]) <==> !exists i :: 0 <= i < j && Dangling(ws, es, i, j)
    decreases j
  {
    if 0 < j {
      CurrentExactly(ws, es, j - 1);
      CurrentStep(ws, es, j - 1);
      if EndsCurrent(ws, es, j - 1) {
        EndIsNoRestore(ws, es, j - 1);
        assert Dangling(ws, es, j - 1, j);
      } else {
        if !CurrentOk(ws[j]) {
          var i :| 0 <= i < j - 1 && Dangling(ws, es, i, j - 1);
          DanglingGoesOn(ws, es, i, j - 1);
        }
        if i :| 0 <= i < j && Dangling(ws, es, i, j) {
          assert i != j - 1;
          DanglingGoesOn(ws, es, i, j - 1);
        }
      }
    }
  }

  /** Event `j` is a tick whose save, in the source, goes through a null pointer. */
  ghost predicate SavesThroughNull(w: World, e: Event) {
    e.Tick? && w.active != 0 && w.enabled && !CurrentOk(w)
  }

  /** Exactly which runs save through a null pointer: those in which the current process exits and the next tick
      that schedules comes before a creation in its slot. */
  lemma SavesAsWrittenExactly(ws: seq<World>, es: seq<Event>)
    requires Trace(ws, es) && CurrentOk(ws[0])
    ensures (exists j :: 0 <= j < |es| && SavesThroughNull(ws[j], es[j])) <==>
      exists i, j :: 0 <= i < j < |es| && Dangling(ws, es, i, j)
                     && es[j].Tick? && ws[j].active != 0 && ws[j].enabled
  {
    forall j | 0 <= j < |es|
      ensures CurrentOk(ws[j]) <==> !exists i :: 0 <= i < j && Dangling(ws, es, i, j)
    {
      CurrentExactly(ws, es, j);
    }
    if exists j :: 0 <= j < |es| && SavesThroughNull(ws[j], es[j]) {
      var j :| 0 <= j < |es| && SavesThroughNull(ws[j], es[j]);
      var i :| 0 <= i < j && Dangling(ws, es, i, j);
    }
    if i, j :| 0 <= i < j < |es| && Dangling(ws, es, i, j) && es[j].Tick? && ws[j].active != 0 && ws[j].enabled {
      assert SavesThroughNull(ws[j], es[j]);
    }
  }
}
