/**
 Runs of the pool in which no slot changes its state and no server dies: the rounds of PoolRounds as they
 happen in the protocol, with the children's announcements anywhere in between.
 */
module PoolQuiet {
  import opened SlotTable
  import opened PoolProtocol
  import opened PoolRounds
  import opened PoolTheorems
  import opened PoolReach
  import opened PoolRefinement

  /** A step of the parent, or one of a child that changes neither a slot nor who is alive. */
  ghost predicate QuietStep(limits: Limits, s: Sys, s': Sys)
    requires s.Shape()
  {
    || ParentStep(limits, s, s')
    || exists p :: ChildStep(s, p, s') && s'.table == s.table && s'.children.Keys == s.children.Keys
  }

  ghost predicate QuietAt(limits: Limits, run: seq<Sys>, k: nat)
    requires k + 1 < |run|
  {
    run[k].Shape() && QuietStep(limits, run[k], run[k + 1])
  }

  ghost predicate QuietRun(limits: Limits, run: seq<Sys>, a: nat, b: nat) {
    a <= b < |run| && forall k :: a <= k < b ==> QuietAt(limits, run, k)
  }

  /** How many servers the slots show in state v, whatever the counters say. */
  ghost function Shown(t: Table, v: SlotState): nat
    requires t.Shaped()
  {
    UsedAs(t.pids, t.states, v, |t.pids|)
  }

  /**
   The counts of a scan under way are right, and so are the counters from its end to the next sleep, and a
   delete has missed no idle server. Before the scan the counters need not be right.
   */
  ghost predicate Right(s: Sys)
    requires s.Shape()
  {
    var t := s.table;
    && !s.pc.OutOfBounds? && (s.pc.Shrinking() || s.pc.Adding() ==> t.Exact() && t.Accounted())
    && match s.pc
       case ScanProbe(k, idle, busy) =>
         idle == UsedAs(t.pids, t.states, Idle, k) && busy == UsedAs(t.pids, t.states, Busy, k)
       case ScanRead(k, idle, busy) =>
         && idle == UsedAs(t.pids, t.states, Idle, k) && busy == UsedAs(t.pids, t.states, Busy, k)
         && t.pids[k] != FREE
       case DelAt(_, j) => forall k :: 0 <= k < j ==> t.pids[k] == FREE || t.states[k] != Idle
       case DelKill(_, j) => t.pids[j] != FREE && t.states[j] == Idle
       case AddHead(startup, _) => !startup
       case AddFork(startup, _, slot) => !startup && t.pids[slot] == FREE && t.states[slot] == Idle
       case AddRecord(startup, _, slot, _) => !startup && t.pids[slot] == FREE && t.states[slot] == Idle
       case _ => true
  }

  /** All servers are alive and the counters, where the parent uses them, are right. */
  ghost predicate Sound(s: Sys)
    requires s.Shape()
  {
    Staffed(s) && Right(s)
  }

  ghost predicate Steady(limits: Limits, n: nat, s: Sys) { Inv(limits, n, s) && Sound(s) }

  /** The part of it that the steps of a round need. */
  ghost predicate InRound(limits: Limits, n: nat, s: Sys) {
    s.Shape() && s.N() == n && Owned(s) && Paced(limits, s) && Sound(s)
  }

  /** The idle count with which an undisturbed round ends, told from any point of the round. */
  ghost function Outcome(limits: Limits, s: Sys): int
    requires s.table.Shaped()
  {
    var idle := s.table.idle;
    if s.pc.Scanning() then RoundIdle(limits, Shown(s.table, Idle), Free(s.table))
    else if s.pc.Shrinking() then idle - HalfUp(idle - limits.max - s.pc.i)
    else if s.pc.Adding() then idle + Min(HalfUp(limits.min - idle - s.pc.i), Free(s.table))
    else Shown(s.table, Idle)
  }

  /**
   A step to s' leaves the outcome of the round and the busy servers as they are; waking up begins a round, and
   the parent goes to sleep with right counters.
   */
  ghost predicate Keeps(limits: Limits, n: nat, s: Sys, s': Sys)
    requires s.Shape() && s.N() == n && Sound(s)
  {
    && s'.Shape() && Sound(s') && Shown(s'.table, Busy) == Shown(s.table, Busy) && |s'.table.pids| == |s.table.pids|
    && Free(s'.table) + Shown(s'.table, Idle) == Free(s.table) + Shown(s.table, Idle)
    && Outcome(limits, s') ==
       (if s.pc.Waiting? && s'.pc.Scanning() then RoundIdle(limits, Shown(s.table, Idle), Free(s.table))
        else Outcome(limits, s))
    && (s'.pc.Waiting? ==> if s.pc.Waiting? then s'.table == s.table else s'.table.Exact())
  }

  // ----- The steps

  lemma WakeKeeps(limits: Limits, n: nat, s: Sys, pid: int)
    requires InRound(limits, n, s) && s.pc.Waiting?
    ensures Keeps(limits, n, s, ParentNext(limits, s, pid))
  {
  }

  /** The end of the scan makes the counters right. */
  lemma ScanEnds(limits: Limits, n: nat, s: Sys)
    requires s.Shape() && s.N() == n && Sound(s) && s.pc.ScanProbe? && s.pc.k == n
    ensures Keeps(limits, n, s, Probe(limits, s))
  {
    UsedAsSplits(s.table.pids, s.table.states, n);
    assert Probe(limits, s).table.Exact() && Probe(limits, s).table.Accounted();
  }

  lemma ProbeKeeps(limits: Limits, n: nat, s: Sys)
    requires InRound(limits, n, s) && s.pc.ScanProbe?
    ensures Keeps(limits, n, s, Probe(limits, s))
  {
    if s.pc.k == n {
      ScanEnds(limits, n, s);
    } else if s.table.pids[s.pc.k] == FREE {
      assert s.table.pids[s.pc.k := FREE] == s.table.pids;
    }
  }

  lemma ReadStateKeeps(limits: Limits, n: nat, s: Sys)
    requires InRound(limits, n, s) && s.pc.ScanRead?
    ensures Keeps(limits, n, s, ReadState(s))
  {
  }

  lemma ShrinkKeeps(limits: Limits, n: nat, s: Sys, pid: int)
    requires InRound(limits, n, s) && s.pc.Shrinking()
    ensures Keeps(limits, n, s, ParentNext(limits, s, pid))
  {
    if s.pc.DelKill? {
      KillRight(limits, n, s);
    } else if s.pc.DelAt? && s.pc.j == n {
      UsedAsNone(s.table.pids, s.table.states, Idle, n);
    }
  }

  lemma KillRight(limits: Limits, n: nat, s: Sys)
    requires InRound(limits, n, s) && s.pc.DelKill?
    ensures Keeps(limits, n, s, Kill(s))
  {
    var s' := Kill(s);
    KillKeepsStaffed(s);
    UsedAsPoint(s.table.pids, s.table.states, s'.table.pids, s'.table.states, Idle, s.pc.j, n);
    UsedAsPoint(s.table.pids, s.table.states, s'.table.pids, s'.table.states, Busy, s.pc.j, n);
    OccupiedPoint(s.table.pids, s'.table.pids, s.pc.j, n);
  }

  lemma AddKeeps(limits: Limits, n: nat, s: Sys, pid: int)
    requires Steady(limits, n, s) && s.pc.Adding() && CanFork(s, pid)
    ensures Keeps(limits, n, s, ParentNext(limits, s, pid))
  {
    AddingKeepsStaffed(limits, n, s, pid);
    OccupiedFull(s.table.pids, n);
    if s.pc.AddHead? {
      AddTestRight(limits, n, s);
    } else if s.pc.AddRecord? {
      RecordRight(limits, n, s);
    }
  }

  lemma AddTestRight(limits: Limits, n: nat, s: Sys)
    requires InRound(limits, n, s) && s.pc.AddHead? && Staffed(AddTest(limits, s))
    ensures Keeps(limits, n, s, AddTest(limits, s))
  {
    AddTestCounts(limits, n, s);
    AddTestOutcome(limits, s);
  }

  lemma AddTestOutcome(limits: Limits, s: Sys)
    requires s.Shape() && s.table.Exact() && s.table.Accounted() && s.pc.AddHead? && !s.pc.startup
    requires var s' := AddTest(limits, s); s'.table.Exact() && s'.table.pids == s.table.pids && !s'.pc.OutOfBounds?
    requires AddTest(limits, s).pc == AddHead(s.pc.startup, s.pc.i + 1) ==> Free(s.table) == 0
    requires Free(s.table) >= 0
    ensures Outcome(limits, AddTest(limits, s)) == Outcome(limits, s)
  {
  }

  lemma AddTestCounts(limits: Limits, n: nat, s: Sys)
    requires s.Shape() && s.N() == n && s.table.Exact() && s.table.Accounted() && s.pc.AddHead?
    ensures var t := AddTest(limits, s).table; t.Exact() && t.Accounted() && t.pids == s.table.pids
    ensures !AddTest(limits, s).pc.OutOfBounds?
    ensures AddTest(limits, s).pc == AddHead(s.pc.startup, s.pc.i + 1) ==> Free(s.table) == 0
    ensures Free(s.table) >= 0
  {
    var s' := AddTest(limits, s);
    var slot := FirstFree(s.table.pids, 0);
    OccupiedFull(s.table.pids, n);
    FreeSlotExists(s.table.pids);
    if s'.pc.AddFork? {
      UsedAsPoint(s.table.pids, s.table.states, s'.table.pids, s'.table.states, Idle, slot, n);
      UsedAsPoint(s.table.pids, s.table.states, s'.table.pids, s'.table.states, Busy, slot, n);
    }
  }

  lemma RecordRight(limits: Limits, n: nat, s: Sys)
    requires InRound(limits, n, s) && s.pc.AddRecord? && Staffed(Record(s))
    ensures Keeps(limits, n, s, Record(s))
  {
    var s' := Record(s);
    UsedAsPoint(s.table.pids, s.table.states, s'.table.pids, s'.table.states, Idle, s.pc.slot, n);
    UsedAsPoint(s.table.pids, s.table.states, s'.table.pids, s'.table.states, Busy, s.pc.slot, n);
    OccupiedPoint(s.table.pids, s'.table.pids, s.pc.slot, n);
  }

  lemma ParentKeepsSteady(limits: Limits, n: nat, s: Sys, pid: int)
    requires Steady(limits, n, s) && CanFork(s, pid)
    ensures Steady(limits, n, ParentNext(limits, s, pid)) && Keeps(limits, n, s, ParentNext(limits, s, pid))
  {
    ParentKeepsInv(limits, n, s, pid);
    if s.pc.Shrinking() {
      ShrinkKeeps(limits, n, s, pid);
    } else if s.pc.Adding() {
      AddKeeps(limits, n, s, pid);
    } else if s.pc.ScanProbe? {
      ProbeKeeps(limits, n, s);
    } else if s.pc.ScanRead? {
      ReadStateKeeps(limits, n, s);
    } else {
      WakeKeeps(limits, n, s, pid);
    }
  }

  lemma ChildKeepsSlots(s: Sys, p: int, s': Sys)
    requires s.Shape() && ChildStep(s, p, s') && s'.children.Keys == s.children.Keys
    ensures s'.pc == s.pc && forall q :: q in s.children ==> s'.children[q].slot == s.children[q].slot
  {
  }

  lemma SameTableSteady(limits: Limits, n: nat, s: Sys, s': Sys)
    requires InRound(limits, n, s) && s'.Shape() && s'.table == s.table && s'.pc == s.pc
    requires s'.children.Keys == s.children.Keys
    requires forall q :: q in s.children ==> s'.children[q].slot == s.children[q].slot
    ensures Keeps(limits, n, s, s')
  {
    assert forall q :: q in s'.children <==> q in s.children.Keys;
  }

  lemma ChildKeepsSteady(limits: Limits, n: nat, s: Sys, p: int, s': Sys)
    requires Steady(limits, n, s) && ChildStep(s, p, s') && s'.table == s.table && s'.children.Keys == s.children.Keys
    ensures Steady(limits, n, s') && Keeps(limits, n, s, s') && s'.pc == s.pc
  {
    ChildKeepsInv(limits, n, s, p, s');
    ChildKeepsSlots(s, p, s');
    SameTableSteady(limits, n, s, s');
  }

  lemma StepKeepsSteady(limits: Limits, n: nat, s: Sys, s': Sys)
    requires Steady(limits, n, s) && QuietStep(limits, s, s')
    ensures Steady(limits, n, s') && Keeps(limits, n, s, s')
  {
    if ParentStep(limits, s, s') {
      var pid: int :| pid != FREE && pid !in s.children && s' == ParentNext(limits, s, pid);
      ParentKeepsSteady(limits, n, s, pid);
    } else {
      var p :| ChildStep(s, p, s') && s'.table == s.table && s'.children.Keys == s.children.Keys;
      ChildKeepsSteady(limits, n, s, p, s');
    }
  }

  // ----- Rounds

  /** How often the parent woke up from run[a] to run[b]. */
  ghost function Wakes(run: seq<Sys>, a: nat, b: nat): nat
    requires a <= b < |run|
    decreases b
  {
    if a == b then 0 else Wakes(run, a, b - 1) + if WakesUp(run[b - 1], run[b]) then 1 else 0
  }

  ghost predicate WakesUp(s: Sys, s': Sys) { s.pc.Waiting? && !s'.pc.Waiting? }

  lemma QuietStepWakes(limits: Limits, s: Sys, s': Sys)
    requires s.Shape() && QuietStep(limits, s, s')
    ensures s.pc.Waiting? && s'.pc.Scanning() <==> WakesUp(s, s')
  {
    if ParentStep(limits, s, s') {
    } else {
      var p :| ChildStep(s, p, s') && s'.table == s.table && s'.children.Keys == s.children.Keys;
      ChildKeepsSlots(s, p, s');
    }
  }

  /** What one step of a quiet run means for the rounds. */
  ghost predicate RoundStep(limits: Limits, s: Sys, s': Sys)
    requires s.table.Shaped()
  {
    && s'.table.Shaped() && Shown(s'.table, Busy) == Shown(s.table, Busy)
    && Shown(s'.table, Idle) + Free(s'.table) == Shown(s.table, Idle) + Free(s.table)
    && (if WakesUp(s, s') then
          && Outcome(limits, s) == Shown(s.table, Idle)
          && Outcome(limits, s') == RoundIdle(limits, Shown(s.table, Idle), Free(s.table))
        else Outcome(limits, s') == Outcome(limits, s))
    && (s'.pc.Waiting? ==> if s.pc.Waiting? then s'.table == s.table else s'.table.Exact())
  }

  lemma QuietStepKeeps(limits: Limits, n: nat, s: Sys, s': Sys)
    requires Steady(limits, n, s) && QuietStep(limits, s, s')
    ensures Steady(limits, n, s') && RoundStep(limits, s, s')
  {
    StepKeepsSteady(limits, n, s, s');
    QuietStepWakes(limits, s, s');
  }

  /** The idle count after the given number of rounds; the sum of idle servers and free slots stays the same. */
  function IdleAfter(limits: Limits, idle: int, free: int, rounds: nat): int {
    if rounds == 0 then idle
    else
      var before := IdleAfter(limits, idle, free, rounds - 1);
      RoundIdle(limits, before, idle + free - before)
  }

  /** The parent sleeps and all servers are alive; a signal may be pending or on its way. */
  ghost predicate Asleep(s: Sys) { s.Shape() && s.pc.Waiting? && AllServed(s) }

  /** Its counters are right, too. */
  ghost predicate Rested(s: Sys) { Asleep(s) && s.table.Exact() && s.table.Accounted() }

  lemma {:induction false} QuietRunSteady(limits: Limits, n: nat, run: seq<Sys>, a: nat, b: nat)
    requires QuietRun(limits, run, a, b) && Steady(limits, n, run[a])
    ensures Steady(limits, n, run[b])
    decreases b
  {
    if a == b {
    } else {
      QuietRunSteady(limits, n, run, a, b - 1);
      assert QuietAt(limits, run, b - 1);
      QuietStepKeeps(limits, n, run[b - 1], run[b]);
    }
  }

  lemma QuietRunStep(limits: Limits, n: nat, run: seq<Sys>, a: nat, k: nat)
    requires QuietRun(limits, run, a, k + 1) && a <= k && Steady(limits, n, run[a])
    ensures run[k].table.Shaped() && RoundStep(limits, run[k], run[k + 1])
  {
    QuietRunSteady(limits, n, run, a, k);
    assert QuietAt(limits, run, k);
    QuietStepKeeps(limits, n, run[k], run[k + 1]);
  }

  /** Where a quiet run stands that began asleep with the given table. */
  ghost predicate Stands(limits: Limits, t: Table, rounds: nat, s: Sys)
    requires t.Shaped()
  {
    && s.table.Shaped() && Shown(s.table, Busy) == Shown(t, Busy)
    && Shown(s.table, Idle) + Free(s.table) == Shown(t, Idle) + Free(t)
    && Outcome(limits, s) == IdleAfter(limits, Shown(t, Idle), Free(t), rounds)
    && (s.pc.Waiting? && (rounds > 0 || t.Exact()) ==> s.table.Exact())
    && (rounds == 0 ==> s.pc.Waiting? && s.table == t)
  }

  lemma StandsAfter(limits: Limits, t: Table, rounds: nat, s: Sys, s': Sys)
    requires t.Shaped() && Stands(limits, t, rounds, s) && RoundStep(limits, s, s')
    ensures Stands(limits, t, if WakesUp(s, s') then rounds + 1 else rounds, s')
  {
  }

  lemma {:induction false} QuietRunStands(limits: Limits, n: nat, run: seq<Sys>, a: nat, b: nat)
    requires QuietRun(limits, run, a, b) && Steady(limits, n, run[a]) && run[a].pc.Waiting?
    ensures Stands(limits, run[a].table, Wakes(run, a, b), run[b])
    decreases b
  {
    if a == b {
    } else {
      QuietRunStands(limits, n, run, a, b - 1);
      QuietRunStep(limits, n, run, a, b - 1);
      StandsAfter(limits, run[a].table, Wakes(run, a, b - 1), run[b - 1], run[b]);
    }
  }

  /**
   Rounds as they happen in runs: the parent sleeps and all servers are alive, but its counters may be wrong, be
   it that servers changed their slots or that a delete was counted wrongly. However its steps and the
   children's announcements interleave, as long as no slot changes its state and no server dies, each round
   ends with right counters, as many busy servers as the slots showed, and the idle count that RoundIdle makes
   of the servers that the slots showed as idle, not of the counter.
   */
  lemma RoundsOfRun(limits: Limits, n: nat, run: seq<Sys>, a: nat, b: nat)
    requires IsRun(limits, n, run) && QuietRun(limits, run, a, b) && Asleep(run[a]) && run[b].pc.Waiting?
    requires Wakes(run, a, b) > 0 || Rested(run[a])
    ensures Rested(run[b]) && run[b].table.busy == Shown(run[a].table, Busy)
    ensures run[b].table.idle == IdleAfter(limits, Shown(run[a].table, Idle), Free(run[a].table), Wakes(run, a, b))
  {
    RunInv(limits, n, run, a);
    QuietRunSteady(limits, n, run, a, b);
    QuietRunStands(limits, n, run, a, b);
    CountersAddUp(limits, n, run, b);
  }

  lemma {:induction false} RoundsHalveOutside(limits: Limits, idle: int, free: int, rounds: nat)
    requires limits.min <= limits.max && limits.min <= idle + free
    ensures Outside(limits, IdleAfter(limits, idle, free, rounds)) == Halved(Outside(limits, idle), rounds)
  {
    if rounds == 0 {
    } else {
      RoundsHalveOutside(limits, idle, free, rounds - 1);
    }
  }

  lemma InBandAfter(limits: Limits, idle: int, free: int, rounds: nat)
    requires limits.min <= limits.max && limits.min <= idle + free
    ensures limits.min <= IdleAfter(limits, idle, free, rounds) <= limits.max
            <==> rounds >= RoundsNeeded(Outside(limits, idle))
  {
    RoundsHalveOutside(limits, idle, free, rounds);
    HalvedToZero(Outside(limits, idle), rounds);
  }

  /** The free slots suffice to bring the idle servers to the minimum. */
  ghost predicate RoomFor(limits: Limits, t: Table)
    requires t.Shaped()
  {
    limits.min <= Shown(t, Idle) + Free(t)
  }

  /**
   In every such run with room for the minimum, the sleeping parent has its idle count in [min, max] exactly
   from the round number floor(log2(distance)) + 1 on, for the distance at which the servers left the slots.
   */
  lemma RunConverges(limits: Limits, n: nat, run: seq<Sys>, a: nat, b: nat)
    requires IsRun(limits, n, run) && QuietRun(limits, run, a, b) && Asleep(run[a]) && run[b].pc.Waiting?
    requires Wakes(run, a, b) > 0 || Rested(run[a])
    requires limits.min <= limits.max && RoomFor(limits, run[a].table)
    ensures limits.min <= run[b].table.idle <= limits.max
            <==> Wakes(run, a, b) >= RoundsNeeded(Outside(limits, Shown(run[a].table, Idle)))
  {
    RoundsOfRun(limits, n, run, a, b);
    InBandAfter(limits, Shown(run[a].table, Idle), Free(run[a].table), Wakes(run, a, b));
  }

  // ----- Growing goes on by itself

  /** A signal is pending or some new server is about to send one. */
  ghost predicate Announcing(s: Sys) {
    s.pending || exists p :: p in s.children && (s.children[p].pc.WriteIdle? || s.children[p].pc.NotifyIdle?)
  }

  /** A round that has added a server, or has ended below the minimum, will be followed by another. */
  ghost predicate Sustained(limits: Limits, s: Sys) {
    && (s.pc.AddHead? && s.pc.i > 0 ==> Announcing(s))
    && (s.pc.AddFork? && s.pc.i > 0 ==> Announcing(s))
    && (s.pc.AddRecord? ==> Announcing(s))
    && (s.pc.Waiting? && s.table.idle < limits.min ==> Announcing(s))
  }

  lemma ParentSustains(limits: Limits, n: nat, s: Sys, pid: int)
    requires Steady(limits, n, s) && CanFork(s, pid) && limits.min <= limits.max && RoomFor(limits, s.table)
    requires Sustained(limits, s) || s.pc.Waiting?
    ensures Sustained(limits, ParentNext(limits, s, pid))
  {
    var s' := ParentNext(limits, s, pid);
    OccupiedFull(s.table.pids, n);
    if s.pc.AddFork? {
      assert pid in s'.children && s'.children[pid].pc.WriteIdle?;
    }
  }

  lemma ChildSustains(limits: Limits, s: Sys, p: int, s': Sys)
    requires s.Shape() && ChildStep(s, p, s') && s'.table == s.table && s'.children.Keys == s.children.Keys
    requires Sustained(limits, s)
    ensures Sustained(limits, s')
  {
    ChildKeepsSlots(s, p, s');
    if Announcing(s) && !s.pending {
      var q :| q in s.children && (s.children[q].pc.WriteIdle? || s.children[q].pc.NotifyIdle?);
      assert q in s'.children.Keys;
      assert s'.pending || s'.children[q].pc.WriteIdle? || s'.children[q].pc.NotifyIdle?;
    }
  }

  lemma StepSustains(limits: Limits, n: nat, s: Sys, s': Sys)
    requires Steady(limits, n, s) && QuietStep(limits, s, s') && limits.min <= limits.max && RoomFor(limits, s.table)
    requires Sustained(limits, s) || WakesUp(s, s')
    ensures Sustained(limits, s')
  {
    QuietStepWakes(limits, s, s');
    if ParentStep(limits, s, s') {
      var pid: int :| pid != FREE && pid !in s.children && s' == ParentNext(limits, s, pid);
      ParentSustains(limits, n, s, pid);
    } else {
      var p :| ChildStep(s, p, s') && s'.table == s.table && s'.children.Keys == s.children.Keys;
      ChildKeepsSlots(s, p, s');
      ChildSustains(limits, s, p, s');
    }
  }

  lemma {:induction false} QuietRunSustains(limits: Limits, n: nat, run: seq<Sys>, a: nat, b: nat)
    requires QuietRun(limits, run, a, b) && Steady(limits, n, run[a]) && run[a].pc.Waiting?
    requires limits.min <= limits.max && RoomFor(limits, run[a].table) && Wakes(run, a, b) > 0
    ensures Sustained(limits, run[b])
    decreases b
  {
    var s, s' := run[b - 1], run[b];
    QuietRunSteady(limits, n, run, a, b - 1);
    QuietRunStands(limits, n, run, a, b - 1);
    if !WakesUp(s, s') {
      QuietRunSustains(limits, n, run, a, b - 1);
    }
    assert QuietAt(limits, run, b - 1);
    StepSustains(limits, n, s, s');
  }

  /** After a round that ends below the minimum the parent is notified, or a server it added will do so. */
  lemma GrowthGoesOn(limits: Limits, n: nat, run: seq<Sys>, a: nat, b: nat)
    requires IsRun(limits, n, run) && QuietRun(limits, run, a, b) && Asleep(run[a]) && run[b].pc.Waiting?
    requires limits.min <= limits.max && RoomFor(limits, run[a].table) && Wakes(run, a, b) > 0
    ensures run[b].table.idle < limits.min ==> Announcing(run[b])
  {
    RunInv(limits, n, run, a);
    QuietRunSustains(limits, n, run, a, b);
  }

  /**
   In every reachable state a server whose accept is interrupted announces itself again, and wakes the parent
   up, in three steps that take no client and change no slot.
   */
  lemma InterruptedAnnounces(limits: Limits, n: nat, s: Sys, p: int) returns (s1: Sys, s2: Sys, s3: Sys)
    requires Reachable(limits, n, s) && s.Shape() && p in s.children && s.children[p].pc.Accepting?
    ensures s1.Shape() && s2.Shape() && Next(limits, s, s1) && Next(limits, s1, s2) && Next(limits, s2, s3)
    ensures QuietStep(limits, s, s1) && QuietStep(limits, s1, s2) && QuietStep(limits, s2, s3)
    ensures s3 == s.(pending := true)
  {
    ReachableInv(limits, n, s);
    s1, s2, s3 := AnnounceAgain(limits, s, p);
  }

  lemma AnnounceAgain(limits: Limits, s: Sys, p: int) returns (s1: Sys, s2: Sys, s3: Sys)
    requires s.Shape() && Truthful(s) && p in s.children && s.children[p].pc.Accepting?
    ensures s1.Shape() && s2.Shape() && Next(limits, s, s1) && Next(limits, s1, s2) && Next(limits, s2, s3)
    ensures QuietStep(limits, s, s1) && QuietStep(limits, s1, s2) && QuietStep(limits, s2, s3)
    ensures s3 == s.(pending := true)
  {
    assert Shows(s.children[p], s.table.states[s.children[p].slot]);
    s1 := ChildNext(s, p, true);
    s2 := ChildNext(s1, p, false);
    s3 := ChildNext(s2, p, false);
    assert s2.table.states == s.table.states && s3.children == s.children;
    assert ChildStep(s, p, s1) && ChildStep(s1, p, s2) && ChildStep(s2, p, s3);
  }

  // ----- Shrinking does not

  /** Steps of the parent only. */
  ghost predicate ParentRun(limits: Limits, run: seq<Sys>, a: nat, b: nat) {
    a < b < |run| && forall k :: a <= k < b ==> ParentAt(limits, run, k)
  }

  ghost predicate ParentAt(limits: Limits, run: seq<Sys>, k: nat)
    requires k + 1 < |run|
  {
    run[k].Shape() && ParentStep(limits, run[k], run[k + 1])
  }

  lemma ParentNeverNotifies(limits: Limits, s: Sys, s': Sys)
    requires s.Shape() && ParentStep(limits, s, s')
    ensures s.pc.Waiting? ==> !s'.pc.Waiting?
    ensures s.pc.Waiting? || !s.pending ==> !s'.pending
    ensures !s.pending ==> !s.pc.Waiting?
  {
  }

  lemma {:induction false} WakesOnce(limits: Limits, run: seq<Sys>, a: nat, b: nat)
    requires ParentRun(limits, run, a, b) && run[a].pc.Waiting?
    ensures !run[b].pending && Wakes(run, a, b) == 1
    decreases b
  {
    assert ParentAt(limits, run, b - 1);
    ParentNeverNotifies(limits, run[b - 1], run[b]);
    if b == a + 1 {
      assert Wakes(run, a, a) == 0;
    } else {
      WakesOnce(limits, run, a, b - 1);
    }
  }

  /**
   When the slots show an excess of e idle servers and no server acts any more, one round takes half of them,
   rounded up, and then the parent cannot move: e / 2 too many stay until a server notifies.
   */
  lemma ShrinkingRests(limits: Limits, n: nat, run: seq<Sys>, a: nat, b: nat)
    requires IsRun(limits, n, run) && ParentRun(limits, run, a, b) && Asleep(run[a]) && run[b].pc.Waiting?
    requires Shown(run[a].table, Idle) > limits.max
    ensures Rested(run[b])
    ensures run[b].table.idle == limits.max + (Shown(run[a].table, Idle) - limits.max) / 2
    ensures forall s :: !ParentStep(limits, run[b], s)
  {
    WakesOnce(limits, run, a, b);
    forall k | a <= k < b
      ensures QuietAt(limits, run, k)
    {
      assert ParentAt(limits, run, k);
    }
    RoundsOfRun(limits, n, run, a, b);
    var idle := Shown(run[a].table, Idle);
    assert IdleAfter(limits, idle, Free(run[a].table), 0) == idle;
  }

  /** The delete loop goes on until the parent sleeps with the idle count of Outcome. */
  lemma {:induction false} ShrinksToRest(limits: Limits, n: nat, s: Sys) returns (s': Sys)
    requires Reachable(limits, n, s) && Steady(limits, n, s) && s.pc.Shrinking() && !s.pending
    requires forall p :: p in s.children ==> s.children[p].pc.Accepting?
    ensures Reachable(limits, n, s') && AtRest(s') && s'.table.Exact() && s'.table.idle == Outcome(limits, s)
    decreases Rank(limits, n, s)
  {
    var pid;
    s', pid := ParentGoes(limits, n, s);
    ParentKeepsSteady(limits, n, s, pid);
    ShrinkingKeepsStaffed(limits, n, s, pid);
    ShrinkStepLowersRank(limits, n, s, pid);
    RankRange(limits, n, s');
    if s'.pc.Shrinking() {
      s' := ShrinksToRest(limits, n, s');
    }
  }

  /**
   For all limits that allow an excess it comes about, in the worst case with the whole table idle, and half of
   it stays: the parent is at rest with right counters, and more servers idle than the maximum if it was two.
   */
  lemma ExcessStays(limits: Limits, n: nat) returns (s: Sys)
    requires limits.min > 0 && n > limits.max
    ensures Reachable(limits, n, s) && AtRest(s) && s.table.Exact()
    ensures s.table.idle == limits.max + (n - limits.max) / 2
  {
    var s0 := FullAndIdle(limits, n);
    UsedAsAll(s0.table.pids, s0.table.states, Idle, n);
    var s1 := Scans(limits, n, s0);
    ReachableInv(limits, n, s1);
    s := ShrinksToRest(limits, n, s1);
  }
}
