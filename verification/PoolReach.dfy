/**
 Runs of the pool that can be forced, for all limits: children that are led to a given point, a parent that
 goes back to sleep, and a table that is filled with servers.
 */
module PoolReach {
  import opened SlotTable
  import opened PoolProtocol
  import opened PoolRefinement
  import opened PoolTheorems

  ghost predicate Reachable(limits: Limits, n: nat, s: Sys) {
    exists run: seq<Sys> :: IsRun(limits, n, run) && run[|run| - 1] == s
  }

  lemma ReachableInv(limits: Limits, n: nat, s: Sys)
    requires Reachable(limits, n, s)
    ensures Inv(limits, n, s) && Truthful(s)
  {
    var run :| IsRun(limits, n, run) && run[|run| - 1] == s;
    RunInv(limits, n, run, |run| - 1);
    SlotsAreTruthful(limits, n, run, |run| - 1);
  }

  lemma Extend(limits: Limits, n: nat, s: Sys, s': Sys)
    requires Reachable(limits, n, s) && s.Shape() && Next(limits, s, s')
    ensures Reachable(limits, n, s')
  {
    var run :| IsRun(limits, n, run) && run[|run| - 1] == s;
    Append(limits, n, run, s');
    assert (run + [s'])[|run|] == s';
  }

  lemma Append(limits: Limits, n: nat, run: seq<Sys>, s': Sys)
    requires IsRun(limits, n, run) && run[|run| - 1].Shape() && Next(limits, run[|run| - 1], s')
    ensures IsRun(limits, n, run + [s'])
  {
    var longer := run + [s'];
    forall k | 0 <= k < |run|
      ensures StepAt(limits, longer, k)
    {
      if k < |run| - 1 { assert StepAt(limits, run, k); }
    }
  }

  lemma {:induction false} ExtendIn(limits: Limits, n: nat, s: Sys, s': Sys, m: nat)
    requires Reachable(limits, n, s) && ReachesIn(limits, s, s', m)
    ensures Reachable(limits, n, s')
    decreases m
  {
    if m == 0 {
    } else {
      var mid :| ParentMove(limits)(s, mid) && Path(ParentMove(limits), mid, s', m - 1);
      Extend(limits, n, s, mid);
      ExtendIn(limits, n, mid, s', m - 1);
    }
  }

  // ----- Children

  /** From s to s' some children moved, and at most slot states and the pending bit changed with them. */
  ghost predicate ChildrenMoved(s: Sys, s': Sys) {
    && s'.pc == s.pc && s'.seen == s.seen && s'.drift == s.drift && |s'.table.states| == |s.table.states|
    && s'.table == s.table.(states := s'.table.states)
    && s'.children.Keys == s.children.Keys
    && forall p :: p in s.children ==> s'.children[p].slot == s.children[p].slot
  }

  /** How many steps a child is away from goal, at least one. */
  function StepsTo(pc: ChildPc, goal: ChildPc): nat {
    if Number(pc) < Number(goal) then Number(goal) - Number(pc) else Number(goal) + 6 - Number(pc)
  }

  function Number(pc: ChildPc): (k: nat)
    ensures k < 6
  {
    match pc
    case WriteIdle(_) => 0
    case NotifyIdle => 1
    case Accepting => 2
    case WriteBusy => 3
    case NotifyBusy => 4
    case Serving => 5
  }

  lemma ChildNextMoves(s: Sys, p: int)
    requires s.Shape() && p in s.children
    ensures ChildNext(s, p, false).Shape() && ChildrenMoved(s, ChildNext(s, p, false))
    ensures forall q :: q in s.children && q != p ==> ChildNext(s, p, false).children[q] == s.children[q]
  {
  }

  /** One step of child p, whose accept is not interrupted. */
  lemma ChildGoes(limits: Limits, n: nat, s: Sys, p: int) returns (s': Sys)
    requires Reachable(limits, n, s) && s.Shape() && p in s.children
    ensures Reachable(limits, n, s') && s'.Shape() && s' == ChildNext(s, p, false) && ChildrenMoved(s, s')
    ensures forall q :: q in s.children && q != p ==> s'.children[q] == s.children[q]
  {
    s' := ChildNext(s, p, false);
    ChildNextMoves(s, p);
    StepReaches(limits, n, s, p, s');
  }

  lemma StepReaches(limits: Limits, n: nat, s: Sys, p: int, s': Sys)
    requires Reachable(limits, n, s) && s.Shape() && ChildStep(s, p, s')
    ensures Reachable(limits, n, s')
  {
    Extend(limits, n, s, s');
  }

  /** Child p goes to where it waits for a client or serves one; the last step before is a notification. */
  lemma {:induction false} Advance(limits: Limits, n: nat, s: Sys, p: int, goal: ChildPc) returns (s': Sys)
    requires Reachable(limits, n, s) && s.Shape() && p in s.children && (goal.Accepting? || goal.Serving?)
    ensures Reachable(limits, n, s') && s'.Shape() && ChildrenMoved(s, s') && s'.pending
    ensures s'.children[p].pc == goal
    ensures forall q :: q in s.children && q != p ==> s'.children[q] == s.children[q]
    decreases StepsTo(s.children[p].pc, goal)
  {
    s' := ChildGoes(limits, n, s, p);
    if s'.children[p].pc == goal {
    } else {
      s' := Advance(limits, n, s', p, goal);
    }
  }

  lemma AnyOf<T>(xs: set<T>) returns (x: T)
    requires xs != {}
    ensures x in xs
  {
    x :| x in xs;
  }

  /** All of todo go there. */
  lemma {:induction false} AdvanceAll(limits: Limits, n: nat, s: Sys, todo: set<int>, goal: ChildPc) returns (s': Sys)
    requires Reachable(limits, n, s) && s.Shape() && todo <= s.children.Keys && (goal.Accepting? || goal.Serving?)
    ensures Reachable(limits, n, s') && s'.Shape() && ChildrenMoved(s, s')
    ensures todo != {} ==> s'.pending
    ensures forall p :: p in todo ==> s'.children[p].pc == goal
    ensures forall p :: p in s.children && p !in todo ==> s'.children[p] == s.children[p]
  {
    if todo == {} {
      s' := s;
    } else {
      var p := AnyOf(todo);
      var mid := AdvanceAll(limits, n, s, todo - {p}, goal);
      s' := Advance(limits, n, mid, p, goal);
    }
  }

  // ----- The parent

  /** Every occupied slot has its server, also in the middle of add_1_sever. */
  ghost predicate Staffed(s: Sys)
    requires s.Shape()
  {
    AllServed(s) && (s.pc.AddRecord? ==> s.pc.pid in s.children && s.children[s.pc.pid].slot == s.pc.slot)
  }

  ghost function Servers(s: Sys): nat { Occupied(s.table.pids, s.N()) }

  lemma {:induction false} FreshPid(pids: set<int>) returns (pid: int)
    ensures pid >= 0 && forall p :: p in pids ==> p < pid
  {
    if pids == {} {
      pid := 0;
    } else {
      var p := AnyOf(pids);
      pid := FreshPid(pids - {p});
      assert pids == (pids - {p}) + {p};
      if pid <= p { pid := p + 1; }
    }
  }

  /** One step of the parent. */
  lemma ParentGoes(limits: Limits, n: nat, s: Sys) returns (s': Sys, pid: int)
    requires Reachable(limits, n, s) && s.Shape() && (s.pc.Waiting? ==> s.pending)
    ensures CanFork(s, pid) && s' == ParentNext(limits, s, pid) && Reachable(limits, n, s') && s'.Shape()
  {
    pid := FreshPid(s.children.Keys);
    s' := ParentNext(limits, s, pid);
    assert CanFork(s, pid) && ParentStep(limits, s, s');
    Extend(limits, n, s, s');
    ReachableInv(limits, n, s');
  }

  /** The adding loops keep all servers. */
  lemma AddingKeepsStaffed(limits: Limits, n: nat, s: Sys, pid: int)
    requires Inv(limits, n, s) && Staffed(s) && s.pc.Adding() && CanFork(s, pid)
    ensures var s' := ParentNext(limits, s, pid);
            s'.Shape() && Staffed(s') && Servers(s') == Servers(s) + if s.pc.AddRecord? then 1 else 0
  {
    ParentKeepsInv(limits, n, s, pid);
    if s.pc.AddRecord? {
      OccupiedPoint(s.table.pids, Record(s).table.pids, s.pc.slot, n);
    }
  }

  lemma KillKeepsStaffed(s: Sys)
    requires s.Shape() && Owned(s) && Staffed(s) && s.pc.DelKill?
    ensures Kill(s).Shape() && Staffed(Kill(s))
  {
    var s' := Kill(s);
    forall k | 0 <= k < s'.N() && s'.table.pids[k] != FREE
      ensures s'.table.pids[k] in s'.children && s'.children[s'.table.pids[k]].slot == k
    {
      assert s.children[s.table.pids[k]].slot == k;
    }
  }

  lemma ShrinkingKeepsStaffed(limits: Limits, n: nat, s: Sys, pid: int)
    requires Inv(limits, n, s) && Staffed(s) && s.pc.Shrinking()
    ensures var s' := ParentNext(limits, s, pid);
            && s'.Shape() && Staffed(s') && s'.pending == s.pending && s'.drift >= s.drift
            && (s'.pc.Shrinking() || s'.pc.Waiting?)
            && forall p :: p in s'.children ==> p in s.children && s'.children[p] == s.children[p]
  {
    if s.pc.DelKill? { KillKeepsStaffed(s); }
  }

  /** The adding loop goes on until the parent sleeps. */
  lemma {:induction false} AddsAndSleeps(limits: Limits, n: nat, s: Sys) returns (s': Sys)
    requires Reachable(limits, n, s) && s.Shape() && Staffed(s) && s.pc.Adding()
    ensures Reachable(limits, n, s') && s'.Shape() && Staffed(s') && s'.pc.Waiting? && Servers(s') >= Servers(s)
    decreases Rank(limits, n, s)
  {
    ReachableInv(limits, n, s);
    var pid;
    s', pid := ParentGoes(limits, n, s);
    AddingKeepsStaffed(limits, n, s, pid);
    AddStepLowersRank(limits, n, s, pid);
    ReachableInv(limits, n, s');
    RankRange(limits, n, s');
    if s'.pc.Waiting? {
    } else {
      s' := AddsAndSleeps(limits, n, s');
    }
  }

  /** An adding loop that has just begun adds a server when there is room. */
  lemma AddsOne(limits: Limits, n: nat, s: Sys) returns (s': Sys)
    requires Reachable(limits, n, s) && s.Shape() && Staffed(s) && s.pc.AddHead?
    requires s.pc.i < AddBound(limits, s.table, s.pc.startup) && Servers(s) < n
    ensures Reachable(limits, n, s') && s'.Shape() && Staffed(s') && s'.pc.Adding() && Servers(s') > Servers(s)
  {
    ReachableInv(limits, n, s);
    UsedAsSplits(s.table.pids, s.seen, n);
    FreeSlotExists(s.table.pids);
    var s1, pid := ParentGoes(limits, n, s);
    assert s1.pc.AddFork?;
    AddingKeepsStaffed(limits, n, s, pid);
    ReachableInv(limits, n, s1);
    var s2, pid1 := ParentGoes(limits, n, s1);
    AddingKeepsStaffed(limits, n, s1, pid1);
    ReachableInv(limits, n, s2);
    var pid2;
    s', pid2 := ParentGoes(limits, n, s2);
    AddingKeepsStaffed(limits, n, s2, pid2);
  }

  /** A parent that was notified wakes up and scans, and finds all servers alive. */
  lemma Scans(limits: Limits, n: nat, s: Sys) returns (s': Sys)
    requires Reachable(limits, n, s) && s.Shape() && Staffed(s) && s.pc.Waiting? && s.pending
    ensures Reachable(limits, n, s') && s'.Shape() && Staffed(s') && Servers(s') == Servers(s) && !s'.pending
    ensures s'.children == s.children && s'.table.pids == s.table.pids && s'.table.states == s.table.states
    ensures s'.table.idle == UsedAs(s.table.pids, s.table.states, Idle, s.N())
    ensures s'.table.Exact() && s'.table.Accounted()
    ensures s'.pc == AfterScan(limits, s'.table.idle)
  {
    var pid := FreshPid(s.children.Keys);
    s' := WakeReaches(limits, s, pid);
    var m: nat :| ReachesIn(limits, s, s', m);
    ExtendIn(limits, n, s, s', m);
    assert Reaped(s.table.pids, s.children.Keys, s.N()) == s.table.pids;
  }

  /**
   A server that dies is noticed by the next scan: its slot, and no slot of another live server, is freed.
   */
  lemma DeadIsReaped(limits: Limits, n: nat, s: Sys, p: int) returns (s': Sys)
    requires Reachable(limits, n, s) && s.Shape() && s.pc.Waiting? && s.pending && p in s.children
    ensures Reachable(limits, n, s') && s'.Shape() && s'.N() == s.N() && s'.children == s.children - {p}
    ensures forall j :: 0 <= j < s.N() ==>
              s'.table.pids[j] == if s.table.pids[j] in s.children - {p} then s.table.pids[j] else FREE
  {
    var dead := Died(s, p);
    assert ChildStep(s, p, dead);
    Extend(limits, n, s, dead);
    ReachableInv(limits, n, s);
    var pid := FreshPid(dead.children.Keys);
    s' := WakeReaches(limits, dead, pid);
    var m: nat :| ReachesIn(limits, dead, s', m);
    ExtendIn(limits, n, dead, s', m);
  }

  // ----- A full table

  /** main starts at least one server and goes to sleep. */
  lemma Startup(limits: Limits, n: nat) returns (s: Sys)
    requires limits.min > 0 && n > 0
    ensures Reachable(limits, n, s) && s.Shape() && Staffed(s) && s.pc.Waiting? && Servers(s) > 0
  {
    var free, idle := seq(n, _ => FREE), seq(n, _ => Idle);
    s := Sys(Table(free, idle, 0, 0), idle, false, map[], AddHead(true, 0), 0);
    assert Init(n, s);
    assert IsRun(limits, n, [s]) && [s][|[s]| - 1] == s;
    OccupiedNone(free, n);
    s := AddsOne(limits, n, s);
    s := AddsAndSleeps(limits, n, s);
  }

  lemma SomeServer(s: Sys)
    requires s.Shape() && Staffed(s) && Servers(s) > 0
    ensures s.children.Keys != {}
  {
    if j :| 0 <= j < s.N() && s.table.pids[j] != FREE {
      assert s.table.pids[j] in s.children.Keys;
    } else {
      OccupiedNone(s.table.pids, s.N());
      assert false;
    }
  }

  /** All servers take clients, and the round that this triggers adds at least one. */
  lemma BusyRound(limits: Limits, n: nat, s: Sys) returns (s': Sys)
    requires limits.min > 0 && Reachable(limits, n, s) && s.Shape() && Staffed(s) && s.pc.Waiting?
    requires 0 < Servers(s) < n
    ensures Reachable(limits, n, s') && s'.Shape() && Staffed(s') && s'.pc.Waiting? && Servers(s') > Servers(s)
  {
    SomeServer(s);
    ReachableInv(limits, n, s);
    var s1 := AdvanceAll(limits, n, s, s.children.Keys, Serving);
    ReachableInv(limits, n, s1);
    forall j | 0 <= j < n
      ensures s1.table.pids[j] == FREE || s1.table.states[j] != Idle
    {
      if s1.table.pids[j] != FREE {
        var c := s1.children[s1.table.pids[j]];
        assert Shows(c, s1.table.states[c.slot]);
      }
    }
    UsedAsNone(s1.table.pids, s1.table.states, Idle, n);
    var s2 := Scans(limits, n, s1);
    var s3 := AddsOne(limits, n, s2);
    s' := AddsAndSleeps(limits, n, s3);
  }

  lemma {:induction false} FillUp(limits: Limits, n: nat, s: Sys) returns (s': Sys)
    requires limits.min > 0 && Reachable(limits, n, s) && s.Shape() && Staffed(s) && s.pc.Waiting?
    requires Servers(s) > 0
    ensures Reachable(limits, n, s') && s'.Shape() && Staffed(s') && s'.pc.Waiting?
    ensures forall j :: 0 <= j < s'.N() ==> s'.table.pids[j] != FREE
    decreases n - Servers(s)
  {
    ReachableInv(limits, n, s);
    OccupiedFull(s.table.pids, n);
    if Servers(s) == n {
      s' := s;
    } else {
      var s1 := BusyRound(limits, n, s);
      ReachableInv(limits, n, s1);
      OccupiedFull(s1.table.pids, n);
      s' := FillUp(limits, n, s1);
    }
  }

  /** However large the table, it can be filled, and then all servers can come to wait for clients. */
  lemma FullAndIdle(limits: Limits, n: nat) returns (s: Sys)
    requires limits.min > 0 && n > 0
    ensures Reachable(limits, n, s) && s.Shape() && s.N() == n && Staffed(s) && s.pc.Waiting? && s.pending
    ensures forall j :: 0 <= j < n ==> s.table.pids[j] != FREE && s.table.states[j] == Idle
    ensures forall p :: p in s.children ==> s.children[p].pc.Accepting?
  {
    var s1 := Startup(limits, n);
    var s2 := FillUp(limits, n, s1);
    ReachableInv(limits, n, s2);
    assert s2.table.pids[0] in s2.children;
    s := AdvanceAll(limits, n, s2, s2.children.Keys, Accepting);
    ReachableInv(limits, n, s);
    forall j | 0 <= j < n
      ensures s.table.states[j] == Idle
    {
      var c := s.children[s.table.pids[j]];
      assert Shows(c, s.table.states[c.slot]);
    }
  }

  // ----- No minimum

  /** With a minimum of 0 no server is ever started. */
  lemma {:induction false} NeverStarts(limits: Limits, n: nat, run: seq<Sys>, k: nat)
    requires IsRun(limits, n, run) && k < |run| && limits.min == 0
    ensures var s := run[k];
            && s.Shape() && s.children == map[] && !s.pending && s.drift == 0
            && (s.pc.Waiting? || s.pc == AddHead(true, 0))
  {
    if k == 0 {
    } else {
      NeverStarts(limits, n, run, k - 1);
      assert StepAt(limits, run, k - 1) && Next(limits, run[k - 1], run[k]);
    }
  }
}
