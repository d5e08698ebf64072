/**
 For which limits the counters of a parent at rest can be wrong: exactly if the table has room for two
 servers more than the maximum of idle ones, and servers are started at all. Then the delete loop can take
 a server that the scan had seen busy, between that server's write of IDLE and its notification.
 */
module PoolDrift {
  import opened SlotTable
  import opened PoolProtocol
  import opened PoolReach
  import opened PoolTheorems

  /** MINSPARSESERVERS and MAXSPARSESERVERS. */
  const LIMITS := Limits(5, 10)
  const MAXCLIENT := 20

  // ----- A small table keeps the counters right

  lemma {:induction false} AllUsedAs(pids: seq<int>, view: seq<SlotState>, v: SlotState, j: nat, k: nat)
    requires j < k <= |pids| && k <= |view| && UsedAs(pids, view, v, k) == k
    ensures view[j] == v
  {
    UsedAsAtMost(pids, view, v, k - 1);
    if j == k - 1 {
    } else {
      AllUsedAs(pids, view, v, j, k - 1);
    }
  }

  /** No delete takes a server that was recorded as busy: all n of them were recorded as idle. */
  lemma DeletesRecordedIdle(limits: Limits, n: nat, s: Sys)
    requires Inv(limits, n, s) && n <= limits.max + 1 && s.pc.DelKill?
    ensures s.seen[s.pc.j] == Idle
  {
    UsedAsAtMost(s.table.pids, s.seen, Idle, n);
    AllUsedAs(s.table.pids, s.seen, Idle, s.pc.j, n);
  }

  lemma StepKeepsNoDrift(limits: Limits, n: nat, s: Sys, s': Sys)
    requires Inv(limits, n, s) && n <= limits.max + 1 && s.drift == 0 && Next(limits, s, s')
    ensures s'.drift == 0
  {
    if ParentStep(limits, s, s') {
      if s.pc.DelKill? { DeletesRecordedIdle(limits, n, s); }
    } else {
      var p :| ChildStep(s, p, s');
    }
  }

  lemma {:induction false} NoDrift(limits: Limits, n: nat, run: seq<Sys>, k: nat)
    requires IsRun(limits, n, run) && k < |run| && n <= limits.max + 1
    ensures run[k].drift == 0
  {
    RunInv(limits, n, run, k);
    if k == 0 {
    } else {
      NoDrift(limits, n, run, k - 1);
      RunInv(limits, n, run, k - 1);
      assert StepAt(limits, run, k - 1);
      StepKeepsNoDrift(limits, n, run[k - 1], run[k]);
    }
  }

  // ----- A larger one does not

  lemma {:induction false} AllButFirst(pids: seq<int>, view: seq<SlotState>, v: SlotState, k: nat)
    requires 0 < k <= |pids| && k <= |view|
    requires forall j :: 0 < j < k ==> pids[j] != FREE && view[j] == v
    ensures UsedAs(pids, view, v, k) >= k - 1
  {
    if k == 1 {
    } else {
      AllButFirst(pids, view, v, k - 1);
    }
  }

  /** The only busy server is the first; the scan finds too many idle ones. */
  lemma FirstIsBusy(limits: Limits, n: nat) returns (s: Sys)
    requires limits.min > 0 && n >= limits.max + 2
    ensures Reachable(limits, n, s) && s.Shape() && s.N() == n && Staffed(s) && !s.pending && s.pc == ShrinkHead(0)
    ensures s.table.pids[0] != FREE && s.seen[0] == Busy && s.table.idle > limits.max
    ensures s.table.pids[0] in s.children && s.children[s.table.pids[0]] == Child(0, Serving)
    ensures forall p :: p in s.children && p != s.table.pids[0] ==> s.children[p].pc.Accepting?
  {
    var s0 := FullAndIdle(limits, n);
    var first := s0.table.pids[0];
    var s1 := Advance(limits, n, s0, first, Serving);
    ReachableInv(limits, n, s1);
    forall j | 0 < j < n
      ensures s1.table.states[j] == Idle
    {
      var c := s1.children[s1.table.pids[j]];
      assert c.slot == j && Shows(c, s1.table.states[j]);
    }
    AllButFirst(s1.table.pids, s1.table.states, Idle, n);
    s := Scans(limits, n, s1);
    ReachableInv(limits, n, s);
    assert Shows(s.children[first], s.table.states[0]) && Noticed(s, s.children[first]);
  }

  /** It finishes and writes IDLE. */
  lemma FirstWritesIdle(limits: Limits, n: nat) returns (s: Sys)
    requires limits.min > 0 && n >= limits.max + 2
    ensures Reachable(limits, n, s) && s.Shape() && s.N() == n && Staffed(s) && !s.pending && s.pc == ShrinkHead(0)
    ensures s.table.pids[0] != FREE && s.seen[0] == Busy && s.table.states[0] == Idle && s.table.idle > limits.max
    ensures forall p :: p in s.children && p != s.table.pids[0] ==> s.children[p].pc.Accepting?
  {
    var s0 := FirstIsBusy(limits, n);
    var first := s0.table.pids[0];
    var s1 := ChildGoes(limits, n, s0, first);
    s := ChildGoes(limits, n, s1, first);
  }

  /** It is deleted before it notifies. */
  lemma FirstIsDeleted(limits: Limits, n: nat) returns (s: Sys)
    requires limits.min > 0 && n >= limits.max + 2
    ensures Reachable(limits, n, s) && s.Shape() && Staffed(s) && !s.pending && s.pc.Shrinking() && s.drift > 0
    ensures forall p :: p in s.children ==> s.children[p].pc.Accepting?
  {
    var s0 := FirstWritesIdle(limits, n);
    var s1, _ := ParentGoes(limits, n, s0);
    var s2, _ := ParentGoes(limits, n, s1);
    assert s2 == s0.(pc := DelKill(0, 0));
    ReachableInv(limits, n, s2);
    KillKeepsStaffed(s2);
    var s3, _ := ParentGoes(limits, n, s2);
    s := s3;
  }

  /** The delete loop goes on until the parent sleeps, and the drift stays. */
  lemma {:induction false} DeletesAndSleeps(limits: Limits, n: nat, s: Sys) returns (s': Sys)
    requires Reachable(limits, n, s) && s.Shape() && Staffed(s) && !s.pending && s.pc.Shrinking() && s.drift > 0
    requires forall p :: p in s.children ==> s.children[p].pc.Accepting?
    ensures Reachable(limits, n, s') && AtRest(s') && s'.drift > 0
    decreases Rank(limits, n, s)
  {
    ReachableInv(limits, n, s);
    var pid;
    s', pid := ParentGoes(limits, n, s);
    ShrinkingKeepsStaffed(limits, n, s, pid);
    ShrinkStepLowersRank(limits, n, s, pid);
    ReachableInv(limits, n, s');
    RankRange(limits, n, s');
    if s'.pc.Waiting? {
    } else {
      s' := DeletesAndSleeps(limits, n, s');
    }
  }

  lemma CountersCanBeWrong(limits: Limits, n: nat) returns (s: Sys)
    requires limits.min > 0 && n >= limits.max + 2
    ensures Reachable(limits, n, s) && AtRest(s) && !s.table.Exact()
  {
    var s1 := FirstIsDeleted(limits, n);
    s := DeletesAndSleeps(limits, n, s1);
    var run :| IsRun(limits, n, run) && run[|run| - 1] == s;
    SleepingCounters(limits, n, run, |run| - 1);
  }

  /** The constants of the program are of the bad kind. */
  lemma AsCompiled() returns (s: Sys)
    ensures Reachable(LIMITS, MAXCLIENT, s) && AtRest(s) && !s.table.Exact()
  {
    s := CountersCanBeWrong(LIMITS, MAXCLIENT);
  }

  lemma CountersStayRight(limits: Limits, n: nat, s: Sys)
    requires limits.min == 0 || n <= limits.max + 1
    requires Reachable(limits, n, s) && AtRest(s)
    ensures s.table.Exact()
  {
    var run :| IsRun(limits, n, run) && run[|run| - 1] == s;
    if limits.min == 0 {
      NeverStarts(limits, n, run, |run| - 1);
    } else {
      NoDrift(limits, n, run, |run| - 1);
    }
    SleepingCounters(limits, n, run, |run| - 1);
  }

  /** The counters are right whenever the parent rests, in all runs, if and only if the constants are so. */
  lemma CountersRight(limits: Limits, n: nat)
    ensures (forall s :: Reachable(limits, n, s) && AtRest(s) ==> s.table.Exact())
            <==> limits.min == 0 || n <= limits.max + 1
  {
    if limits.min == 0 || n <= limits.max + 1 {
      forall s | Reachable(limits, n, s) && AtRest(s)
        ensures s.table.Exact()
      {
        CountersStayRight(limits, n, s);
      }
    } else {
      var s := CountersCanBeWrong(limits, n);
    }
  }
}
