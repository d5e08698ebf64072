/**
 The sequential operations of SlotTable are what the steps of PoolProtocol do when no child acts: from a
 woken parent, parent steps alone lead back to sleep with exactly the table that Scan and Adjust compute.
 So the loops that ServerPool proves and PoolRounds measures are runs of the protocol.
 */
module PoolRefinement {
  import opened SlotTable
  import opened PoolProtocol

  /** m steps lead from s to s'. */
  ghost predicate Path<S(!new)>(step: (S, S) -> bool, s: S, s': S, m: nat)
    decreases m
  {
    if m == 0 then s == s' else exists mid :: step(s, mid) && Path(step, mid, s', m - 1)
  }

  lemma {:induction false} PathTrans<S(!new)>(step: (S, S) -> bool, a: S, b: S, c: S, i: nat, j: nat)
    requires Path(step, a, b, i) && Path(step, b, c, j)
    ensures Path(step, a, c, i + j)
    decreases i
  {
    if i == 0 {
    } else {
      var mid :| step(a, mid) && Path(step, mid, b, i - 1);
      PathTrans(step, mid, b, c, i - 1, j);
    }
  }

  ghost function ParentMove(limits: Limits): (Sys, Sys) -> bool {
    (s: Sys, s': Sys) => s.Shape() && ParentStep(limits, s, s')
  }

  ghost predicate ReachesIn(limits: Limits, s: Sys, s': Sys, m: nat) { Path(ParentMove(limits), s, s', m) }

  /** Steps of the parent alone lead from s to s'. */
  ghost predicate Reaches(limits: Limits, s: Sys, s': Sys) { exists m: nat :: ReachesIn(limits, s, s', m) }

  lemma ReachesTrans(limits: Limits, a: Sys, b: Sys, c: Sys)
    requires Reaches(limits, a, b) && Reaches(limits, b, c)
    ensures Reaches(limits, a, c)
  {
    var i: nat :| ReachesIn(limits, a, b, i);
    var j: nat :| ReachesIn(limits, b, c, j);
    PathTrans(ParentMove(limits), a, b, c, i, j);
    assert ReachesIn(limits, a, c, i + j);
  }

  /** A pid that fork may return. */
  ghost predicate CanFork(s: Sys, pid: int) { pid != FREE && pid !in s.children }

  lemma OneStep(limits: Limits, s: Sys, pid: int)
    requires s.Shape() && CanFork(s, pid) && (s.pc.Waiting? ==> s.pending)
    ensures Reaches(limits, s, ParentNext(limits, s, pid))
  {
    var s' := ParentNext(limits, s, pid);
    assert ParentStep(limits, s, s') && ParentMove(limits)(s, s');
    assert ReachesIn(limits, s', s', 0) && ReachesIn(limits, s, s', 1);
  }

  // ----- scan_pool

  /** A scan that treated the slots before k as Scan(t, alive) does; alive holds the live servers. */
  ghost predicate ScanUnderway(s: Sys, t: Table, k: nat) {
    && s.Shape() && t.Shaped() && k <= |t.pids| == s.N() && t.states == s.table.states
    && s.table.pids == Reaped(t.pids, s.children.Keys, k)
    && var all := Reaped(t.pids, s.children.Keys, |t.pids|);
       s.pc == ScanProbe(k, UsedAs(all, t.states, Idle, k), UsedAs(all, t.states, Busy, k))
  }

  /** One iteration of scan_pool. */
  lemma ScanIteration(limits: Limits, s: Sys, t: Table, k: nat, pid: int) returns (s': Sys)
    requires ScanUnderway(s, t, k) && k < s.N() && CanFork(s, pid)
    ensures Reaches(limits, s, s') && ScanUnderway(s', t, k + 1)
    ensures s'.children == s.children && s'.pending == s.pending
  {
    OneStep(limits, s, pid);
    var s1 := Probe(limits, s);
    if s1.pc.ScanRead? {
      OneStep(limits, s1, pid);
      s' := ReadState(s1);
      ReachesTrans(limits, s, s1, s');
    } else {
      s' := s1;
    }
    assert s'.table.pids == Reaped(t.pids, s.children.Keys, k + 1);
  }

  /** The rest of scan_pool. */
  lemma {:induction false} ScanReaches(limits: Limits, s: Sys, t: Table, k: nat, pid: int)
    returns (s': Sys)
    requires ScanUnderway(s, t, k) && CanFork(s, pid)
    ensures Reaches(limits, s, s') && s'.Shape() && s'.children == s.children && s'.pending == s.pending
    ensures s'.table == Scan(t, s.children.Keys) && s'.pc == AfterScan(limits, s'.table.idle)
    decreases s.N() - k
  {
    if k == s.N() {
      OneStep(limits, s, pid);
      s' := Probe(limits, s);
    } else {
      var s1 := ScanIteration(limits, s, t, k, pid);
      s' := ScanReaches(limits, s1, t, k + 1, pid);
      ReachesTrans(limits, s, s1, s');
    }
  }

  // ----- The deleting loop

  /** The rest of del_1_server. */
  lemma {:induction false} DelReaches(limits: Limits, s: Sys, pid: int) returns (s': Sys)
    requires s.Shape() && s.pc.DelAt? && CanFork(s, pid)
    ensures Reaches(limits, s, s') && s'.Shape()
    ensures s'.pc == ShrinkHead(s.pc.i + 1) && CanFork(s', pid)
    ensures var slot := FirstIdle(s.table.pids, s.table.states, s.pc.j);
            s'.table == if slot == s.N() then s.table
                        else s.table.(pids := s.table.pids[slot := FREE], idle := s.table.idle - 1)
    decreases s.N() - s.pc.j
  {
    OneStep(limits, s, pid);
    var s1 := DelTest(s);
    if s1.pc.ShrinkHead? {
      s' := s1;
    } else if s1.pc.DelKill? {
      OneStep(limits, s1, pid);
      s' := Kill(s1);
      ReachesTrans(limits, s, s1, s');
    } else {
      s' := DelReaches(limits, s1, pid);
      ReachesTrans(limits, s, s1, s');
    }
  }

  /** One iteration of the deleting loop. */
  lemma ShrinkIteration(limits: Limits, s: Sys, pid: int) returns (s': Sys)
    requires s.Shape() && s.pc.ShrinkHead? && s.pc.i < s.table.idle - limits.max && CanFork(s, pid)
    ensures Reaches(limits, s, s') && s'.Shape() && s'.pc == ShrinkHead(s.pc.i + 1) && CanFork(s', pid)
    ensures s'.table == DelServer(s.table).0
  {
    OneStep(limits, s, pid);
    var s1 := s.(pc := DelAt(s.pc.i, 0));
    assert s1 == ParentNext(limits, s, pid);
    s' := DelReaches(limits, s1, pid);
    ReachesTrans(limits, s, s1, s');
  }

  lemma {:induction false} ShrinkReaches(limits: Limits, s: Sys, pid: int) returns (s': Sys)
    requires s.Shape() && s.pc.ShrinkHead? && s.table.Accounted() && CanFork(s, pid)
    ensures Reaches(limits, s, s') && s'.pc.Waiting?
    ensures s'.table == ShrinkLoop(s.table, limits, s.pc.i)
    decreases s.table.idle - limits.max - s.pc.i
  {
    if s.pc.i >= s.table.idle - limits.max {
      OneStep(limits, s, pid);
      s' := ParentNext(limits, s, pid);
    } else {
      var s1 := ShrinkIteration(limits, s, pid);
      DelServerKeeps(s.table);
      s' := ShrinkReaches(limits, s1, pid);
      ReachesTrans(limits, s, s1, s');
    }
  }

  // ----- The adding loop

  /** add_1_sever after it chose its slot: next is a pid for later. */
  lemma ForkAndRecord(limits: Limits, s: Sys, pid: int, next: int) returns (s': Sys)
    requires s.Shape() && s.pc.AddFork? && CanFork(s, pid) && CanFork(s, next) && next != pid
    ensures Reaches(limits, s, s') && s'.Shape() && s'.children.Keys <= s.children.Keys + {pid}
    ensures s'.table == s.table.(pids := s.table.pids[s.pc.slot := pid], idle := s.table.idle + 1)
    ensures s'.pc == AddHead(s.pc.startup, s.pc.i + 1)
  {
    OneStep(limits, s, pid);
    var s1 := Fork(s, pid);
    OneStep(limits, s1, next);
    s' := Record(s1);
    ReachesTrans(limits, s, s1, s');
  }

  /** One call of add_1_sever from the adding loop of a round. */
  lemma AddReaches(limits: Limits, s: Sys, i: nat, pid: int, next: int) returns (s': Sys)
    requires s.Shape() && s.pc == AddHead(false, i) && i < limits.min - s.table.idle && s.table.Accounted()
    requires CanFork(s, pid) && CanFork(s, next) && next != pid
    ensures Reaches(limits, s, s') && s'.Shape() && s'.pc == AddHead(false, i + 1)
    ensures s'.table == AddServer(s.table, pid).0 && s'.children.Keys <= s.children.Keys + {pid}
  {
    OneStep(limits, s, pid);
    FreeSlotExists(s.table.pids);
    var s1 := AddTest(limits, s);
    if s.table.idle + s.table.busy >= s.N() {
      s' := s1;
    } else {
      s' := ForkAndRecord(limits, s1, pid, next);
      ReachesTrans(limits, s, s1, s');
    }
  }

  /** The pids of fork from i on are new and differ. */
  ghost predicate Supplies(fork: ForkPids, s: Sys, i: nat) {
    && (forall j, k :: 0 <= j < k ==> fork(j) != fork(k))
    && forall j :: j >= i ==> fork(j) !in s.children
  }

  lemma StillSupplies(fork: ForkPids, s: Sys, s': Sys, i: nat)
    requires Supplies(fork, s, i) && s'.children.Keys <= s.children.Keys + {fork(i)}
    ensures Supplies(fork, s', i + 1) && CanFork(s, fork(i)) && CanFork(s, fork(i + 1)) && fork(i + 1) != fork(i)
  {
  }

  lemma GrowLoopStep(t: Table, limits: Limits, fork: ForkPids, i: nat)
    requires t.Accounted() && i < limits.min - t.idle
    ensures AddServer(t, fork(i)).0.Accounted()
    ensures GrowLoop(t, limits, fork, i) == GrowLoop(AddServer(t, fork(i)).0, limits, fork, i + 1)
    ensures limits.min - AddServer(t, fork(i)).0.idle - (i + 1) < limits.min - t.idle - i
  {
    AddServerKeeps(t, fork(i));
  }

  lemma GrowIteration(limits: Limits, s: Sys, fork: ForkPids, i: nat) returns (s': Sys)
    requires s.Shape() && s.pc == AddHead(false, i) && s.table.Accounted() && Supplies(fork, s, i)
    requires i < limits.min - s.table.idle
    ensures Reaches(limits, s, s') && s'.Shape() && s'.pc == AddHead(false, i + 1)
    ensures s'.table == AddServer(s.table, fork(i)).0 && Supplies(fork, s', i + 1)
  {
    StillSupplies(fork, s, s, i);
    s' := AddReaches(limits, s, i, fork(i), fork(i + 1));
    StillSupplies(fork, s, s', i);
  }

  lemma {:induction false} GrowReaches(limits: Limits, s: Sys, fork: ForkPids, i: nat) returns (s': Sys)
    requires s.Shape() && s.pc == AddHead(false, i) && s.table.Accounted() && Supplies(fork, s, i)
    ensures Reaches(limits, s, s') && s'.pc.Waiting?
    ensures s'.table == GrowLoop(s.table, limits, fork, i)
    decreases limits.min - s.table.idle - i
  {
    if i >= limits.min - s.table.idle {
      OneStep(limits, s, fork(i));
      s' := AddTest(limits, s);
    } else {
      var s1 := GrowIteration(limits, s, fork, i);
      GrowLoopStep(s.table, limits, fork, i);
      s' := GrowReaches(limits, s1, fork, i + 1);
      ReachesTrans(limits, s, s1, s');
    }
  }

  // ----- The round

  /** Waking up and scanning. */
  lemma WakeReaches(limits: Limits, s: Sys, pid: int) returns (s': Sys)
    requires s.Shape() && s.pc.Waiting? && s.pending && CanFork(s, pid)
    ensures Reaches(limits, s, s') && s'.Shape() && s'.children == s.children && !s'.pending
    ensures s'.table == Scan(s.table, s.children.Keys) && s'.pc == AfterScan(limits, s'.table.idle)
  {
    OneStep(limits, s, pid);
    var s1 := ParentNext(limits, s, pid);
    assert ScanUnderway(s1, s.table, 0);
    s' := ScanReaches(limits, s1, s.table, 0, pid);
    ReachesTrans(limits, s, s1, s');
  }

  /** A woken parent that no child disturbs goes back to sleep with the table of Scan and Adjust. */
  lemma QuietRoundReaches(limits: Limits, s: Sys, fork: ForkPids) returns (s': Sys)
    requires s.Shape() && s.pc.Waiting? && s.pending && Supplies(fork, s, 0)
    ensures Reaches(limits, s, s') && s'.pc.Waiting?
    ensures s'.table == Adjust(Scan(s.table, s.children.Keys), limits, fork)
  {
    assert CanFork(s, fork(0));
    var s1 := WakeReaches(limits, s, fork(0));
    if s1.pc.ShrinkHead? {
      s' := ShrinkReaches(limits, s1, fork(0));
    } else if s1.pc.AddHead? {
      s' := GrowReaches(limits, s1, fork, 0);
    } else {
      return s1;
    }
    ReachesTrans(limits, s, s1, s');
  }
}
