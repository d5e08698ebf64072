/**
 scan_pool with the two reads of a slot's state that lines 134 and 136 make: a server that goes from BUSY to
 IDLE between them makes the parent abort (line 140). When that can happen, and that nothing else differs.
 */
module PoolAbort {
  import opened SlotTable
  import opened PoolProtocol
  import opened PoolReach
  import opened PoolRefinement
  import opened PoolTheorems

  /** sawBusy: the parent is at line 136, having read at line 134 that the slot is not IDLE. */
  datatype Exec = Running(s: Sys, sawBusy: bool) | Aborted

  ghost predicate Init2(n: nat, x: Exec) { x.Running? && !x.sawBusy && Init(n, x.s) }

  /** What the slot shows whose state the parent is about to read. */
  ghost function Scanned(s: Sys): SlotState
    requires s.Shape() && s.pc.ScanRead?
  {
    s.table.states[s.pc.k]
  }

  /** A read at line 134 finds IDLE, or leads to line 136, where BUSY is counted and anything else aborts. */
  ghost predicate Read2(x: Exec, x': Exec)
    requires x.Running? && x.s.Shape() && x.s.pc.ScanRead?
  {
    if Scanned(x.s) == Idle then x' == if x.sawBusy then Aborted else Running(ReadState(x.s), false)
    else x' == if x.sawBusy then Running(ReadState(x.s), false) else Running(x.s, true)
  }

  ghost predicate ParentStep2(limits: Limits, x: Exec, x': Exec)
    requires x.Running? && x.s.Shape()
  {
    if x.s.pc.ScanRead? then Read2(x, x') else x'.Running? && !x'.sawBusy && ParentStep(limits, x.s, x'.s)
  }

  ghost predicate Next2(limits: Limits, x: Exec, x': Exec) {
    && x.Running? && x.s.Shape()
    && (|| ParentStep2(limits, x, x')
        || (x'.Running? && x'.sawBusy == x.sawBusy && exists p :: ChildStep(x.s, p, x'.s)))
  }

  ghost predicate IsRun2(limits: Limits, n: nat, run: seq<Exec>) {
    |run| > 0 && Init2(n, run[0]) && forall k :: 0 <= k < |run| - 1 ==> Next2(limits, run[k], run[k + 1])
  }

  ghost predicate Reachable2(limits: Limits, n: nat, x: Exec) {
    exists run: seq<Exec> :: IsRun2(limits, n, run) && run[|run| - 1] == x
  }

  lemma Extend2(limits: Limits, n: nat, x: Exec, x': Exec)
    requires Reachable2(limits, n, x) && Next2(limits, x, x')
    ensures Reachable2(limits, n, x')
  {
    var run: seq<Exec> :| IsRun2(limits, n, run) && run[|run| - 1] == x;
    var longer := run + [x'];
    assert IsRun2(limits, n, longer) && longer[|longer| - 1] == x';
  }

  // ----- Up to the abort, the two reads are one

  lemma StepProjects(limits: Limits, n: nat, x: Exec, x': Exec)
    requires Next2(limits, x, x') && Reachable(limits, n, x.s) && x'.Running?
    ensures Reachable(limits, n, x'.s)
  {
    if x'.s != x.s {
      if x.s.pc.ScanRead? && x'.s == ReadState(x.s) {
        var pid := FreshPid(x.s.children.Keys);
        assert CanFork(x.s, pid) && x'.s == ParentNext(limits, x.s, pid);
      }
      assert Next(limits, x.s, x'.s);
      Extend(limits, n, x.s, x'.s);
    }
  }

  /** Whatever two reads lead to without an abort, one read leads to as well. */
  lemma {:induction false} Projects(limits: Limits, n: nat, run: seq<Exec>, k: nat)
    requires IsRun2(limits, n, run) && k < |run| && run[k].Running?
    ensures Reachable(limits, n, run[k].s)
    decreases k
  {
    if k == 0 {
      var s := run[0].s;
      assert IsRun(limits, n, [s]) && [s][|[s]| - 1] == s;
    } else {
      assert Next2(limits, run[k - 1], run[k]);
      Projects(limits, n, run, k - 1);
      StepProjects(limits, n, run[k - 1], run[k]);
    }
  }

  /** And conversely. */
  lemma StepLifts(limits: Limits, n: nat, s: Sys, s': Sys)
    requires Reachable2(limits, n, Running(s, false)) && s.Shape() && Next(limits, s, s')
    ensures Reachable2(limits, n, Running(s', false))
  {
    var x, x' := Running(s, false), Running(s', false);
    if (exists p :: ChildStep(s, p, s')) || !s.pc.ScanRead? {
      Extend2(limits, n, x, x');
    } else {
      assert s' == ReadState(s);
      if Scanned(s) == Busy {
        Extend2(limits, n, x, Running(s, true));
        Extend2(limits, n, Running(s, true), x');
      } else {
        Extend2(limits, n, x, x');
      }
    }
  }

  lemma {:induction false} RunLifts(limits: Limits, n: nat, run: seq<Sys>, k: nat)
    requires IsRun(limits, n, run) && k < |run|
    ensures Reachable2(limits, n, Running(run[k], false))
  {
    if k == 0 {
      var x := Running(run[0], false);
      assert IsRun2(limits, n, [x]) && [x][|[x]| - 1] == x;
    } else {
      RunLifts(limits, n, run, k - 1);
      RunInv(limits, n, run, k - 1);
      assert StepAt(limits, run, k - 1);
      StepLifts(limits, n, run[k - 1], run[k]);
    }
  }

  /** The states of the two programs are the same, but for the one that reads BUSY and then IDLE. */
  lemma SameStates(limits: Limits, n: nat, s: Sys)
    ensures Reachable(limits, n, s) <==> Reachable2(limits, n, Running(s, false))
  {
    if Reachable(limits, n, s) {
      var run :| IsRun(limits, n, run) && run[|run| - 1] == s;
      RunLifts(limits, n, run, |run| - 1);
    }
    if Reachable2(limits, n, Running(s, false)) {
      var run: seq<Exec> :| IsRun2(limits, n, run) && run[|run| - 1] == Running(s, false);
      Projects(limits, n, run, |run| - 1);
    }
  }

  // ----- The abort

  /** An abort happens in the scan of a slot, so there is one, and a server in it. */
  lemma AbortNeedsServer(limits: Limits, n: nat)
    requires Reachable2(limits, n, Aborted)
    ensures limits.min > 0 && n > 0
  {
    var run: seq<Exec> :| IsRun2(limits, n, run) && run[|run| - 1] == Aborted;
    var k := |run| - 2;
    assert Next2(limits, run[k], run[k + 1]);
    Projects(limits, n, run, k);
    var s := run[k].s;
    ReachableInv(limits, n, s);
    if limits.min == 0 {
      var before :| IsRun(limits, n, before) && before[|before| - 1] == s;
      NeverStarts(limits, n, before, |before| - 1);
      assert false;
    }
  }

  /** The first server serves a client when the parent is about to read its slot. */
  lemma ScansBusySlot(limits: Limits, n: nat) returns (s: Sys)
    requires limits.min > 0 && n > 0
    ensures Reachable(limits, n, s) && s.Shape() && s.pc.ScanRead? && s.pc.k == 0 && Scanned(s) == Busy
    ensures exists p :: p in s.children && s.children[p] == Child(0, Serving)
  {
    var s0 := FullAndIdle(limits, n);
    var p := s0.table.pids[0];
    var s1 := Advance(limits, n, s0, p, Serving);
    var s2, _ := ParentGoes(limits, n, s1);
    var s3, _ := ParentGoes(limits, n, s2);
    ReachableInv(limits, n, s3);
    s := s3;
    assert p in s.children && s.children[p] == Child(0, Serving);
    assert Shows(s.children[p], s.table.states[0]);
  }

  /** One step of child p between the two reads. */
  lemma ChildGoesBetween(limits: Limits, n: nat, s: Sys, p: int) returns (s': Sys)
    requires Reachable(limits, n, s) && Reachable2(limits, n, Running(s, true)) && s.Shape() && p in s.children
    ensures Reachable(limits, n, s') && Reachable2(limits, n, Running(s', true))
    ensures s'.Shape() && s' == ChildNext(s, p, false) && s'.pc == s.pc
  {
    s' := ChildGoes(limits, n, s, p);
    assert ChildStep(s, p, s');
    Extend2(limits, n, Running(s, true), Running(s', true));
  }

  /** It finishes and writes IDLE between the two reads. */
  lemma CanAbort(limits: Limits, n: nat)
    requires limits.min > 0 && n > 0
    ensures Reachable2(limits, n, Aborted)
  {
    var s := ScansBusySlot(limits, n);
    SameStates(limits, n, s);
    Extend2(limits, n, Running(s, false), Running(s, true));
    var p :| p in s.children && s.children[p] == Child(0, Serving);
    var s1 := ChildGoesBetween(limits, n, s, p);
    var s2 := ChildGoesBetween(limits, n, s1, p);
    assert Scanned(s2) == Idle;
    Extend2(limits, n, Running(s2, true), Aborted);
  }

  /** Some run aborts exactly if the pool ever has a server. */
  lemma AbortReachable(limits: Limits, n: nat)
    ensures Reachable2(limits, n, Aborted) <==> limits.min > 0 && n > 0
  {
    if Reachable2(limits, n, Aborted) { AbortNeedsServer(limits, n); }
    if limits.min > 0 && n > 0 { CanAbort(limits, n); }
  }
}
