/**
 del_1_server tests a slot's state and then kills (lines 112 and 113): in between, or even before the test
 while its slot still shows IDLE, the server may have accepted a client. When a delete cuts a client off.
 */
module PoolCutOff {
  import opened SlotTable
  import opened PoolProtocol
  import opened PoolReach
  import opened PoolTheorems

  /** The server has accepted a client and not closed the connection. */
  predicate HoldsClient(pc: ChildPc) { pc.WriteBusy? || pc.NotifyBusy? || pc.Serving? }

  /** The parent is about to kill a server that holds a client. */
  ghost predicate CutsOff(s: Sys) {
    && s.Shape() && s.pc.DelKill?
    && var p := s.table.pids[s.pc.j]; p in s.children && HoldsClient(s.children[p].pc)
  }

  /** A delete happens only with more servers than the maximum of idle ones. */
  lemma DeletesNeedServers(limits: Limits, n: nat, s: Sys)
    requires Reachable(limits, n, s) && s.pc.DelKill?
    ensures limits.min > 0 && n > limits.max
  {
    ReachableInv(limits, n, s);
    UsedAsAtMost(s.table.pids, s.seen, Idle, n);
    if limits.min == 0 {
      var run :| IsRun(limits, n, run) && run[|run| - 1] == s;
      NeverStarts(limits, n, run, |run| - 1);
      assert false;
    }
  }

  lemma CanCutOff(limits: Limits, n: nat) returns (s: Sys)
    requires limits.min > 0 && n > limits.max
    ensures Reachable(limits, n, s) && CutsOff(s)
  {
    var s0 := FullAndIdle(limits, n);
    UsedAsAll(s0.table.pids, s0.table.states, Idle, n);
    var s1 := Scans(limits, n, s0);
    var s2, _ := ParentGoes(limits, n, s1);
    var s3, _ := ParentGoes(limits, n, s2);
    assert s3.pc == DelKill(0, 0);
    s := ChildGoes(limits, n, s3, s3.table.pids[0]);
  }

  /** Some run cuts a client off exactly if the constants allow deletes at all. */
  lemma ClientsCutOff(limits: Limits, n: nat)
    ensures (exists s :: Reachable(limits, n, s) && CutsOff(s)) <==> limits.min > 0 && n > limits.max
  {
    if s :| Reachable(limits, n, s) && CutsOff(s) {
      DeletesNeedServers(limits, n, s);
    }
    if limits.min > 0 && n > limits.max {
      var s := CanCutOff(limits, n);
    }
  }

  // ----- Which accepts are to blame

  /** run[m] tests slot j, and from run[m + 1] to run[k] the parent is about to kill its server. */
  ghost predicate TestedThenKilled(run: seq<Sys>, m: nat, k: nat, j: nat) {
    && m < k < |run| && run[m].pc.DelAt? && run[m].pc.j == j
    && forall l :: m < l <= k ==> run[l].pc.DelKill? && run[l].pc == run[k].pc && run[k].pc.j == j
  }

  /** Step l is the return of p's accept with a client. */
  ghost predicate AcceptsAt(run: seq<Sys>, p: int, l: nat) {
    && l + 1 < |run| && p in run[l].children && p in run[l + 1].children
    && run[l].children[p].pc.Accepting? && run[l + 1].children[p].pc.WriteBusy?
  }

  /** At the test the slot shows IDLE, so a server with a client has not marked it yet. */
  lemma AtTheTest(limits: Limits, n: nat, s: Sys, s': Sys, p: int)
    requires s.Shape() && Truthful(s) && Next(limits, s, s') && s.pc.DelAt? && s'.pc.DelKill?
    requires p in s'.children && s'.children[p].slot == s.pc.j && HoldsClient(s'.children[p].pc)
    ensures p in s.children && s.children[p].pc.WriteBusy?
  {
    if ParentStep(limits, s, s') {
      assert s' == DelTest(s) && s.table.states[s.pc.j] == Idle;
      assert Shows(s.children[p], s.table.states[s.children[p].slot]);
    } else {
      var q :| ChildStep(s, q, s');
      ChildStepKeepsRank(limits, n, s, q, s');
      assert false;
    }
  }

  /** A step between the test and the kill is one of a child. */
  lemma InBetween(limits: Limits, s: Sys, s': Sys, p: int)
    requires s.Shape() && Next(limits, s, s') && s.pc.DelKill? && s'.pc == s.pc
    requires CutsOff(s') && p == s'.table.pids[s'.pc.j]
    ensures p == s.table.pids[s.pc.j] && p in s.children && s.children[p].slot == s'.children[p].slot
    ensures CutsOff(s) || (s.children[p].pc.Accepting? && s'.children[p].pc.WriteBusy?)
  {
    if ParentStep(limits, s, s') {
      assert false;
    } else {
      var q :| ChildStep(s, q, s');
      OneChild(s, q, s', p);
    }
  }

  lemma OneChild(s: Sys, q: int, s': Sys, p: int)
    requires s.Shape() && ChildStep(s, q, s') && p in s'.children
    ensures s'.table.pids == s.table.pids && p in s.children && s.children[p].slot == s'.children[p].slot
    ensures HoldsClient(s'.children[p].pc) ==>
              HoldsClient(s.children[p].pc) || (s.children[p].pc.Accepting? && s'.children[p].pc.WriteBusy?)
  {
  }

  /**
   A delete that cuts a client off kills a server that had accepted but not marked its slot when it was
   tested, or that accepted between the test and the kill, or that runs in another slot because fork gave it
   the pid of a dead server. Every other delete takes a server without client.
   */
  lemma {:induction false} WhoIsCutOff(limits: Limits, n: nat, run: seq<Sys>, m: nat, k: nat, j: nat, p: int)
    requires IsRun(limits, n, run) && TestedThenKilled(run, m, k, j)
    requires CutsOff(run[k]) && p == run[k].table.pids[j]
    ensures || (p in run[m].children && run[m].children[p].pc.WriteBusy?)
            || (exists l :: m < l < k && AcceptsAt(run, p, l))
            || run[k].children[p].slot != j
    decreases k
  {
    SlotsAreTruthful(limits, n, run, k - 1);
    assert StepAt(limits, run, k - 1);
    if run[k].children[p].slot != j {
    } else if k == m + 1 {
      AtTheTest(limits, n, run[m], run[k], p);
    } else {
      InBetween(limits, run[k - 1], run[k], p);
      if !AcceptsAt(run, p, k - 1) {
        WhoIsCutOff(limits, n, run, m, k - 1, j, p);
      }
    }
  }
}
