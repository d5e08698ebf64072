/** What holds in every run of the pre-fork pool, however parent and children interleave. */
module PoolTheorems {
  import opened SlotTable
  import opened PoolProtocol
  import opened Sequences

  // ----- The notification protocol

  /**
   No wakeup is lost: while the parent sleeps, it last recorded for every live server the state that the
   slot shows, unless the server is between its write and its kill or a signal will end the sleep.
   */
  lemma NoLostWakeup(limits: Limits, n: nat, run: seq<Sys>, k: nat, p: int)
    requires IsRun(limits, n, run) && k < |run|
    requires run[k].pc.Waiting? && p in run[k].children
    ensures run[k].Shape()
    ensures var s := run[k]; var c := s.children[p];
            s.table.states[c.slot] == s.seen[c.slot] || c.pc.MidNotify() || s.pending
  {
    RunInv(limits, n, run, k);
    assert Noticed(run[k], run[k].children[p]);
  }

  /** Every occupied slot is run by a live server that owns it. */
  ghost predicate AllServed(s: Sys)
    requires s.Shape()
  {
    forall k :: 0 <= k < s.N() && s.table.pids[k] != FREE ==>
      s.table.pids[k] in s.children && s.children[s.table.pids[k]].slot == k
  }

  /** The parent sleeps, no signal is pending or about to be sent, and no server is dead. */
  ghost predicate AtRest(s: Sys) {
    && s.Shape() && s.pc.Waiting? && !s.pending && AllServed(s)
    && forall p :: p in s.children ==> !s.children[p].pc.MidNotify()
  }

  lemma {:induction false} UsedAsSame(pids: seq<int>, view: seq<SlotState>, view': seq<SlotState>,
                                      v: SlotState, k: nat)
    requires k <= |pids| == |view| == |view'|
    requires forall j :: 0 <= j < k && pids[j] != FREE ==> view[j] == view'[j]
    ensures UsedAs(pids, view, v, k) == UsedAs(pids, view', v, k)
  {
    if k == 0 {
    } else {
      UsedAsSame(pids, view, view', v, k - 1);
    }
  }

  /**
   At rest the counters are off by exactly the number of servers that the last round deleted although it
   had recorded them as busy. For which limits that can happen is in PoolDrift.dfy.
   */
  lemma SleepingCounters(limits: Limits, n: nat, run: seq<Sys>, k: nat)
    requires IsRun(limits, n, run) && k < |run| && AtRest(run[k])
    ensures run[k].N() == n
    ensures var t := run[k].table;
            && t.idle == UsedAs(t.pids, t.states, Idle, n) - run[k].drift
            && t.busy == UsedAs(t.pids, t.states, Busy, n) + run[k].drift
    ensures run[k].table.Exact() <==> run[k].drift == 0
  {
    RunInv(limits, n, run, k);
    var s := run[k];
    var t := s.table;
    forall j | 0 <= j < n && t.pids[j] != FREE
      ensures s.seen[j] == t.states[j]
    {
      assert Noticed(s, s.children[t.pids[j]]);
    }
    UsedAsSame(t.pids, s.seen, t.states, Idle, n);
    UsedAsSame(t.pids, s.seen, t.states, Busy, n);
  }

  // ----- What the slots show

  /** What the slot of a server at this point shows: its last write or, for a new server, add_1_sever's. */
  ghost predicate Shows(c: Child, v: SlotState) {
    match c.pc
    case WriteIdle(shown) => v == shown
    case NotifyIdle | Accepting | WriteBusy => v == Idle
    case NotifyBusy | Serving => v == Busy
  }

  /** Every slot of a live server shows that. */
  ghost predicate Truthful(s: Sys)
    requires s.Shape()
  {
    forall p :: p in s.children ==> Shows(s.children[p], s.table.states[s.children[p].slot])
  }

  lemma OwnSlot(s: Sys, p: int, q: int)
    requires s.Shape() && Owned(s) && p in s.children && q in s.children && p != q
    ensures s.children[p].slot != s.children[q].slot
  {
    assert Owns(s, p, s.children[p]) && Owns(s, q, s.children[q]);
  }

  lemma AddTestKeepsTruthful(limits: Limits, s: Sys)
    requires s.Shape() && Owned(s) && Truthful(s) && s.pc.AddHead? && AddTest(limits, s).Shape()
    ensures Truthful(AddTest(limits, s))
  {
    forall p | p in s.children
      ensures s.table.pids[s.children[p].slot] != FREE
    {
      assert Owns(s, p, s.children[p]);
    }
  }

  lemma ForkKeepsTruthful(s: Sys, pid: int)
    requires s.Shape() && Owned(s) && Truthful(s) && s.pc.AddFork? && pid !in s.children && Fork(s, pid).Shape()
    ensures Truthful(Fork(s, pid))
  {
  }

  /** The other steps of the parent write no state and start no server. */
  lemma OtherParentSteps(limits: Limits, s: Sys, pid: int)
    requires s.Shape() && !s.pc.AddHead? && !s.pc.AddFork?
    ensures var s' := ParentNext(limits, s, pid);
            && s'.table.states == s.table.states
            && forall p :: p in s'.children ==> p in s.children && s'.children[p] == s.children[p]
  {
  }

  lemma ParentKeepsTruthful(limits: Limits, s: Sys, pid: int)
    requires s.Shape() && Owned(s) && Truthful(s) && pid !in s.children && ParentNext(limits, s, pid).Shape()
    ensures Truthful(ParentNext(limits, s, pid))
  {
    if s.pc.AddHead? {
      AddTestKeepsTruthful(limits, s);
    } else if s.pc.AddFork? {
      ForkKeepsTruthful(s, pid);
    } else {
      OtherParentSteps(limits, s, pid);
    }
  }

  lemma WriteKeepsTruthful(s: Sys, p: int, v: SlotState, next: ChildPc)
    requires s.Shape() && Owned(s) && Truthful(s) && p in s.children && Shows(Child(s.children[p].slot, next), v)
    ensures Truthful(Write(s, p, v, next))
  {
    forall q | q in s.children && q != p
      ensures s.children[q].slot != s.children[p].slot
    {
      OwnSlot(s, p, q);
    }
  }

  lemma ChildKeepsTruthful(s: Sys, p: int, s': Sys)
    requires s.Shape() && Owned(s) && Truthful(s) && ChildStep(s, p, s') && s'.Shape()
    ensures Truthful(s')
  {
    if s' != Died(s, p) {
      match s.children[p].pc
      case WriteIdle(_) => WriteKeepsTruthful(s, p, Idle, NotifyIdle);
      case WriteBusy => WriteKeepsTruthful(s, p, Busy, NotifyBusy);
      case _ =>
    }
  }

  lemma NextKeepsTruthful(limits: Limits, s: Sys, s': Sys)
    requires s.Shape() && Owned(s) && Truthful(s) && Next(limits, s, s') && s'.Shape()
    ensures Truthful(s')
  {
    if ParentStep(limits, s, s') {
      var pid: int :| pid != FREE && pid !in s.children && s' == ParentNext(limits, s, pid);
      ParentKeepsTruthful(limits, s, pid);
    } else {
      var p :| ChildStep(s, p, s');
      ChildKeepsTruthful(s, p, s');
    }
  }

  lemma RunOwned(limits: Limits, n: nat, run: seq<Sys>, k: nat)
    requires IsRun(limits, n, run) && k < |run|
    ensures run[k].Shape() && Owned(run[k])
  {
    RunInv(limits, n, run, k);
  }

  /** In every run the slot of a live server shows what was last written for it; no other write gets there. */
  lemma {:induction false} SlotsAreTruthful(limits: Limits, n: nat, run: seq<Sys>, k: nat)
    requires IsRun(limits, n, run) && k < |run|
    ensures run[k].Shape() && Truthful(run[k])
  {
    RunOwned(limits, n, run, k);
    if k == 0 {
    } else {
      SlotsAreTruthful(limits, n, run, k - 1);
      RunOwned(limits, n, run, k - 1);
      assert StepAt(limits, run, k - 1);
      NextKeepsTruthful(limits, run[k - 1], run[k]);
    }
  }

  // ----- The slot allocator

  /** Outside a scan the counters add up to the occupied slots, so no write ever misses the table. */
  lemma CountersAddUp(limits: Limits, n: nat, run: seq<Sys>, k: nat)
    requires IsRun(limits, n, run) && k < |run|
    ensures !run[k].pc.OutOfBounds?
    ensures !run[k].pc.Scanning() ==> run[k].table.Accounted()
  {
    RunInv(limits, n, run, k);
    UsedAsSplits(run[k].table.pids, run[k].seen, n);
  }

  lemma {:induction false} DistinctSlots(children: map<int, Child>, n: nat)
    requires forall p :: p in children ==> children[p].slot < n
    requires forall p, q :: p in children && q in children && p != q ==> children[p].slot != children[q].slot
    ensures |children| <= n
  {
    if n == 0 {
      assert forall p :: p in children ==> children[p].slot < 0;
      assert |children| == |children.Keys| == 0;
    } else if p :| p in children && children[p].slot == n - 1 {
      var rest := children - {p};
      assert rest.Keys == children.Keys - {p};
      DistinctSlots(rest, n - 1);
    } else {
      DistinctSlots(children, n - 1);
    }
  }

  /**
   add_1_sever takes the first free slot, whatever the children do: it marks it IDLE here, and the steps that
   follow put the new pid into it.
   */
  lemma AddTakesFirstFree(limits: Limits, n: nat, run: seq<Sys>, k: nat)
    requires IsRun(limits, n, run) && k < |run| && run[k].pc.AddHead? && run[k].Shape()
    requires run[k].pc.i < AddBound(limits, run[k].table, run[k].pc.startup)
    ensures var s, s' := run[k], AddTest(limits, run[k]);
            if s.table.idle + s.table.busy >= n then s' == s.(pc := AddHead(s.pc.startup, s.pc.i + 1))
            else
              && s'.pc.AddFork? && s'.pc.slot < n && s.table.pids[s'.pc.slot] == FREE
              && (forall j :: 0 <= j < s'.pc.slot ==> s.table.pids[j] != FREE)
              && s'.table == s.table.(states := s.table.states[s'.pc.slot := Idle]) && s'.children == s.children
  {
    RunInv(limits, n, run, k);
    AddTestStaysInside(limits, n, run[k]);
  }

  /** Up to the first sleep: one server, counted as idle, for each call made that found room. */
  ghost predicate Starting(n: nat, s: Sys) {
    && s.pc.Adding() && s.pc.startup && s.table.busy == 0
    && s.table.idle == (if s.pc.i <= n then s.pc.i else n) && (!s.pc.AddHead? ==> s.pc.i < n)
  }

  lemma StepKeepsStarting(limits: Limits, n: nat, s: Sys, s': Sys)
    requires Inv(limits, n, s) && Starting(n, s) && Next(limits, s, s')
    ensures Starting(n, s') || (s'.pc.Waiting? && s'.table.busy == 0 && s'.table.idle == Least(limits.min, n))
  {
    AddTestStaysInside(limits, n, s);
    if ParentStep(limits, s, s') {
    } else {
      var p :| ChildStep(s, p, s');
      ChildStepKeepsRank(limits, n, s, p, s');
      assert s'.table.idle == s.table.idle && s'.table.busy == s.table.busy;
    }
  }

  function Least(a: int, b: int): int { if a <= b then a else b }

  /** In every run, whatever the children do, main starts exactly the minimum of servers before it first sleeps. */
  lemma {:induction false} StartsMinimum(limits: Limits, n: nat, run: seq<Sys>, k: nat)
    requires IsRun(limits, n, run) && k < |run| && forall j :: 0 <= j < k ==> !run[j].pc.Waiting?
    ensures Starting(n, run[k]) || run[k].pc.Waiting?
    ensures run[k].pc.Waiting? ==> run[k].table.busy == 0 && run[k].table.idle == Least(limits.min, n)
  {
    if k == 0 {
    } else {
      StartsMinimum(limits, n, run, k - 1);
      RunInv(limits, n, run, k - 1);
      assert StepAt(limits, run, k - 1);
      StepKeepsStarting(limits, n, run[k - 1], run[k]);
    }
  }

  /**
   No two live servers write to the same slot, there are never more than n, and each is recorded in its
   slot except while add_1_sever is between its fork and its line 67.
   */
  lemma SlotsAreExclusive(limits: Limits, n: nat, run: seq<Sys>, k: nat)
    requires IsRun(limits, n, run) && k < |run|
    ensures run[k].Shape() && run[k].N() == n
    ensures forall p, q :: p in run[k].children && q in run[k].children && p != q ==>
              run[k].children[p].slot != run[k].children[q].slot
    ensures |run[k].children| <= n
    ensures !run[k].pc.AddRecord? ==>
              forall p :: p in run[k].children ==> run[k].table.pids[run[k].children[p].slot] == p
  {
    RunInv(limits, n, run, k);
    var s := run[k];
    forall p, q | p in s.children && q in s.children && p != q
      ensures s.children[p].slot != s.children[q].slot
    {
      OwnSlot(s, p, q);
    }
    DistinctSlots(s.children, n);
    forall p | p in s.children && !s.pc.AddRecord?
      ensures s.table.pids[s.children[p].slot] == p
    {
      assert Owns(s, p, s.children[p]);
    }
  }

  // ----- The controller

  /**
   Whatever the children do meanwhile, a deleting loop never takes the idle count below the maximum and
   an adding loop of a round never takes it above the minimum.
   */
  lemma NoOvershoot(limits: Limits, n: nat, run: seq<Sys>, k: nat)
    requires IsRun(limits, n, run) && k + 1 < |run|
    ensures run[k].pc.Shrinking() ==> limits.max <= run[k + 1].table.idle <= run[k].table.idle
    ensures run[k].pc.Growing() ==> run[k].table.idle <= run[k + 1].table.idle <= limits.min
  {
    RunInv(limits, n, run, k);
    assert StepAt(limits, run, k);
  }

  /** An upper bound on the parent steps from one sleep to the next. */
  function RoundBound(limits: Limits, n: nat): nat { 3 + (n + 4) * n + 3 * limits.min + 2 * n }

  /** How many steps the parent has at most before it sleeps. */
  ghost function Rank(limits: Limits, n: nat, s: Sys): int {
    match s.pc
    case Waiting => 0
    case ScanProbe(k, _, _) => RoundBound(limits, n) - 2 * k
    case ScanRead(k, _, _) => RoundBound(limits, n) - 2 * k - 1
    case ShrinkHead(i) =>
      if i < s.table.idle - limits.max then 1 + (n + 4) * (s.table.idle - limits.max - i) else 1
    case DelAt(i, j) => (n + 4) * (s.table.idle - limits.max - i) - j
    case DelKill(i, j) => (n + 4) * (s.table.idle - limits.max - i) - j - 1
    case AddHead(startup, i) =>
      var r := AddBound(limits, s.table, startup) - i;
      if r > 0 then 1 + 3 * r else 1
    case AddFork(startup, i, _) => 3 * (AddBound(limits, s.table, startup) - i)
    case AddRecord(startup, i, _, _) => 3 * (AddBound(limits, s.table, startup) - i) - 1
    case OutOfBounds => 0
  }

  lemma {:induction false} UsedAsAtMost(pids: seq<int>, view: seq<SlotState>, v: SlotState, k: nat)
    requires k <= |pids| && k <= |view|
    ensures UsedAs(pids, view, v, k) <= k
  {
    if k == 0 {
    } else {
      UsedAsAtMost(pids, view, v, k - 1);
    }
  }

  lemma ShrinkRange(n: nat, r: int)
    requires r <= n
    ensures (n + 4) * r <= (n + 4) * n && (r > 0 ==> (n + 4) * r >= n + 4)
  {
    MulMono(n + 4, r, n);
    if r > 0 { MulMono(n + 4, 1, r); }
  }

  lemma ShrinkRankRange(limits: Limits, n: nat, s: Sys)
    requires s.pc.Shrinking() && Paced(limits, s) && s.table.idle <= n && s.Shape() && s.N() == n
    ensures 0 <= Rank(limits, n, s) <= 1 + (n + 4) * n
  {
    ShrinkRange(n, s.table.idle - limits.max - s.pc.i);
  }

  lemma RankRange(limits: Limits, n: nat, s: Sys)
    requires Inv(limits, n, s)
    ensures 0 <= Rank(limits, n, s) <= RoundBound(limits, n)
    ensures !s.pc.Scanning() ==> Rank(limits, n, s) <= RoundBound(limits, n) - 2 * n - 2
  {
    ShrinkRange(n, 0);
    if s.pc.Shrinking() {
      UsedAsAtMost(s.table.pids, s.seen, Idle, n);
      ShrinkRankRange(limits, n, s);
    } else {
      OtherRankRange(limits, n, s, (n + 4) * n);
    }
  }

  lemma OtherRankRange(limits: Limits, n: nat, s: Sys, square: int)
    requires !s.pc.Shrinking() && Paced(limits, s) && 0 <= s.table.idle && s.Shape() && s.N() == n
    requires square == (n + 4) * n >= 0
    ensures 0 <= Rank(limits, n, s) <= 3 + square + 3 * limits.min + 2 * n
    ensures !s.pc.Scanning() ==> Rank(limits, n, s) <= 1 + square + 3 * limits.min
  {
  }

  lemma ShrinkStepLowersRank(limits: Limits, n: nat, s: Sys, pid: int)
    requires Inv(limits, n, s) && s.pc.Shrinking()
    ensures Rank(limits, n, ParentNext(limits, s, pid)) < Rank(limits, n, s)
    ensures ParentNext(limits, s, pid).pc != s.pc
  {
    var r := s.table.idle - limits.max - s.pc.i;
    MulStep(n + 4, r - 1);
    MulStep(n + 4, r - 2);
  }

  lemma AddStepLowersRank(limits: Limits, n: nat, s: Sys, pid: int)
    requires Inv(limits, n, s) && s.pc.Adding()
    ensures Rank(limits, n, ParentNext(limits, s, pid)) < Rank(limits, n, s)
    ensures ParentNext(limits, s, pid).pc != s.pc
  {
    AddTestStaysInside(limits, n, s);
  }

  /** The search of add_1_sever finds a free slot. */
  lemma AddTestStaysInside(limits: Limits, n: nat, s: Sys)
    requires Inv(limits, n, s)
    ensures s.pc.AddHead? ==> !AddTest(limits, s).pc.OutOfBounds?
  {
    if s.pc.AddHead? { AddTestKeepsInv(limits, n, s); }
  }

  lemma ScanStepLowersRank(limits: Limits, n: nat, s: Sys, pid: int)
    requires Inv(limits, n, s) && s.pc.Scanning() && pid != FREE && pid !in s.children
    ensures Rank(limits, n, ParentNext(limits, s, pid)) < Rank(limits, n, s)
    ensures ParentNext(limits, s, pid).pc != s.pc
  {
    if s.pc.k == n {
      ParentKeepsInv(limits, n, s, pid);
      RankRange(limits, n, ParentNext(limits, s, pid));
    }
  }

  lemma ParentStepLowersRank(limits: Limits, n: nat, s: Sys, s': Sys)
    requires Inv(limits, n, s) && ParentStep(limits, s, s') && !s.pc.Waiting?
    ensures s'.pc != s.pc && Rank(limits, n, s') < Rank(limits, n, s)
  {
    var pid: int :| pid != FREE && pid !in s.children && s' == ParentNext(limits, s, pid);
    if s.pc.Shrinking() {
      ShrinkStepLowersRank(limits, n, s, pid);
    } else if s.pc.Adding() {
      AddStepLowersRank(limits, n, s, pid);
    } else {
      ScanStepLowersRank(limits, n, s, pid);
    }
  }

  lemma ChildStepKeepsRank(limits: Limits, n: nat, s: Sys, p: int, s': Sys)
    requires s.Shape() && ChildStep(s, p, s')
    ensures s'.pc == s.pc && Rank(limits, n, s') == Rank(limits, n, s)
  {
  }

  /** How often the parent moved from run[a] to run[b]. */
  ghost function ParentMoves(run: seq<Sys>, a: nat, b: nat): nat
    requires a <= b < |run|
    decreases b
  {
    if a == b then 0 else ParentMoves(run, a, b - 1) + if run[b - 1].pc != run[b].pc then 1 else 0
  }

  lemma {:induction false} MovesLowerRank(limits: Limits, n: nat, run: seq<Sys>, a: nat, b: nat)
    requires IsRun(limits, n, run) && a <= b < |run|
    requires forall k :: a <= k < b ==> !run[k].pc.Waiting?
    ensures ParentMoves(run, a, b) + Rank(limits, n, run[b]) <= Rank(limits, n, run[a])
    decreases b
  {
    if a == b {
    } else {
      MovesLowerRank(limits, n, run, a, b - 1);
      RunInv(limits, n, run, b - 1);
      assert StepAt(limits, run, b - 1);
      if ParentStep(limits, run[b - 1], run[b]) {
        ParentStepLowersRank(limits, n, run[b - 1], run[b]);
      } else {
        var p :| ChildStep(run[b - 1], p, run[b]);
        ChildStepKeepsRank(limits, n, run[b - 1], p, run[b]);
      }
    }
  }

  /**
   Scan, deletes and adds of a round end under every interleaving: between two sleeps the parent makes at
   most RoundBound steps, although the adjusting loops re-evaluate their bounds and deletes or adds fail.
   */
  lemma RoundsEnd(limits: Limits, n: nat, run: seq<Sys>, a: nat, b: nat)
    requires IsRun(limits, n, run) && a <= b < |run|
    requires forall k :: a <= k < b ==> !run[k].pc.Waiting?
    ensures ParentMoves(run, a, b) <= RoundBound(limits, n)
  {
    MovesLowerRank(limits, n, run, a, b);
    RunInv(limits, n, run, a);
    RunInv(limits, n, run, b);
    RankRange(limits, n, run[a]);
    RankRange(limits, n, run[b]);
  }
}
