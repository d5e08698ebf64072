/**
 The pre-fork pool of dynamic_pool.c as interleaved steps of the parent and its children. A step makes at
 most one access to memory that both sides use, or one system call. The parent sleeps in sigsuspend with
 SIG_NOTIFY blocked everywhere else, so a notification sets one pending bit that only waking up clears.
 Assumptions: fork succeeds and returns a pid that no live server has, kill(pid, 0) succeeds exactly for a live
 server's pid, and a child that was sent SIGTERM takes no further step.
 */
module PoolProtocol {
  import opened SlotTable

  // ----- The state

  /**
   What the child is about to do: lines 82, 83, 84, 93, 94 and 99 of server_job. At line 82 shown is what was
   last written to the slot: BUSY by the child itself after line 99, IDLE by the parent for a new child or by
   the child before an accept that was interrupted.
   */
  datatype ChildPc = WriteIdle(shown: SlotState) | NotifyIdle | Accepting | WriteBusy | NotifyBusy | Serving {
    predicate MidNotify() { NotifyIdle? || NotifyBusy? }
  }

  datatype Child = Child(slot: nat, pc: ChildPc)

  /** What the parent is about to do. The loop counter of main is i. */
  datatype ParentPc =
    | Waiting                                            // in sigsuspend
    | ScanProbe(k: nat, idle: int, busy: int)            // scan_pool: the tests on slot k's pid
    | ScanRead(k: nat, idle: int, busy: int)             // scan_pool: the read of slot k's state
    | ShrinkHead(i: nat)                                 // the test of the deleting loop
    | DelAt(i: nat, j: nat)                              // del_1_server: the tests on slot j
    | DelKill(i: nat, j: nat)                            // del_1_server: kill and free slot j
    | AddHead(startup: bool, i: nat)                     // the test of an adding loop, up to line 56
    | AddFork(startup: bool, i: nat, slot: nat)          // add_1_sever: fork
    | AddRecord(startup: bool, i: nat, slot: nat, pid: int) // add_1_sever: lines 67 and 68
    | OutOfBounds                                        // a write past the end of the table
  {
    predicate Scanning() { ScanProbe? || ScanRead? }
    predicate Shrinking() { ShrinkHead? || DelAt? || DelKill? }
    predicate Adding() { AddHead? || AddFork? || AddRecord? }
    predicate Growing() { Adding() && !startup }
  }

  /**
   children holds the servers that run and were not sent SIGTERM. Two fields only observe: seen is the
   state the parent last recorded for each slot, and drift the number of servers deleted since the last
   scan although the parent had recorded them as busy.
   */
  datatype Sys = Sys(table: Table, seen: seq<SlotState>, pending: bool, children: map<int, Child>,
                     pc: ParentPc, drift: nat)
  {
    function N(): nat { |table.pids| }

    /** Every index in use is inside the table. */
    ghost predicate Shape() {
      && |table.pids| == |table.states| == |seen|
      && (forall p :: p in children ==> children[p].slot < N())
      && match pc {
           case ScanProbe(k, _, _) => k <= N()
           case ScanRead(k, _, _) => k < N()
           case DelAt(_, j) => j <= N()
           case DelKill(_, j) => j < N()
           case AddFork(_, _, slot) => slot < N()
           case AddRecord(_, _, slot, _) => slot < N()
           case _ => true
         }
    }
  }

  /** The start of main: n free slots, then the loop at line 212. */
  ghost predicate Init(n: nat, s: Sys) {
    && s.N() == n && s.Shape()
    && (forall k :: 0 <= k < n ==> s.table.pids[k] == FREE)
    && s.table.idle == s.table.busy == 0
    && !s.pending && s.children == map[] && s.drift == 0
    && s.pc == AddHead(true, 0)
  }

  // ----- The steps

  function AfterScan(limits: Limits, idle: int): ParentPc {
    if idle > limits.max then ShrinkHead(0)
    else if idle < limits.min then AddHead(false, 0)
    else Waiting
  }

  /** How many times the adding loop may still be entered, as its test computes it. */
  function AddBound(limits: Limits, t: Table, startup: bool): int {
    if startup then limits.min else limits.min - t.idle
  }

  /** One iteration of scan_pool up to the read of the state, or its end. */
  ghost function Probe(limits: Limits, s: Sys): Sys
    requires s.Shape() && s.pc.ScanProbe?
  {
    var ScanProbe(k, idle, busy) := s.pc;
    var t := s.table;
    if k == s.N() then
      s.(table := t.(idle := idle, busy := busy), drift := 0, pc := AfterScan(limits, idle))
    else if t.pids[k] != FREE && t.pids[k] in s.children then s.(pc := ScanRead(k, idle, busy))
    else s.(table := t.(pids := t.pids[k := FREE]), pc := ScanProbe(k + 1, idle, busy))
  }

  ghost function ReadState(s: Sys): Sys
    requires s.Shape() && s.pc.ScanRead?
  {
    var ScanRead(k, idle, busy) := s.pc;
    var v := s.table.states[k];
    s.(seen := s.seen[k := v],
       pc := if v == Idle then ScanProbe(k + 1, idle + 1, busy) else ScanProbe(k + 1, idle, busy + 1))
  }

  ghost function DelTest(s: Sys): Sys
    requires s.Shape() && s.pc.DelAt?
  {
    var DelAt(i, j) := s.pc;
    s.(pc := if j == s.N() then ShrinkHead(i + 1)
             else if s.table.pids[j] != FREE && s.table.states[j] == Idle then DelKill(i, j)
             else DelAt(i, j + 1))
  }

  ghost function Kill(s: Sys): Sys
    requires s.Shape() && s.pc.DelKill?
  {
    var DelKill(i, j) := s.pc;
    var t := s.table;
    s.(table := t.(pids := t.pids[j := FREE], idle := t.idle - 1), children := s.children - {t.pids[j]},
       drift := s.drift + if s.seen[j] == Busy then 1 else 0, pc := ShrinkHead(i + 1))
  }

  /** The loop test, then add_1_sever up to its write of the state. */
  ghost function AddTest(limits: Limits, s: Sys): Sys
    requires s.Shape() && s.pc.AddHead?
  {
    var AddHead(startup, i) := s.pc;
    var t := s.table;
    var slot := FirstFree(t.pids, 0);
    if i >= AddBound(limits, t, startup) then s.(pc := Waiting)
    else if t.idle + t.busy >= s.N() then s.(pc := AddHead(startup, i + 1))
    else if slot == s.N() then s.(pc := OutOfBounds)
    else s.(table := t.(states := t.states[slot := Idle]), seen := s.seen[slot := Idle],
            pc := AddFork(startup, i, slot))
  }

  ghost function Fork(s: Sys, pid: int): Sys
    requires s.pc.AddFork?
  {
    var AddFork(startup, i, slot) := s.pc;
    s.(children := s.children[pid := Child(slot, WriteIdle(Idle))], pc := AddRecord(startup, i, slot, pid))
  }

  ghost function Record(s: Sys): Sys
    requires s.Shape() && s.pc.AddRecord?
  {
    var AddRecord(startup, i, slot, pid) := s.pc;
    s.(table := s.table.(pids := s.table.pids[slot := pid], idle := s.table.idle + 1),
       pc := AddHead(startup, i + 1))
  }

  /** One step of the parent; pid is what fork returns when the step is a fork. */
  ghost function ParentNext(limits: Limits, s: Sys, pid: int): Sys
    requires s.Shape()
  {
    match s.pc
    case Waiting => s.(pending := false, pc := ScanProbe(0, 0, 0))
    case ScanProbe(_, _, _) => Probe(limits, s)
    case ScanRead(_, _, _) => ReadState(s)
    case ShrinkHead(i) =>
      s.(pc := if i >= s.table.idle - limits.max then Waiting
               else if s.table.idle == 0 then ShrinkHead(i + 1) else DelAt(i, 0))
    case DelAt(_, _) => DelTest(s)
    case DelKill(_, _) => Kill(s)
    case AddHead(_, _) => AddTest(limits, s)
    case AddFork(_, _, _) => Fork(s, pid)
    case AddRecord(_, _, _, _) => Record(s)
    case OutOfBounds => s
  }

  ghost predicate ParentStep(limits: Limits, s: Sys, s': Sys)
    requires s.Shape()
  {
    && (s.pc.Waiting? ==> s.pending)
    && exists pid: int :: pid != FREE && pid !in s.children && s' == ParentNext(limits, s, pid)
  }

  ghost function Move(s: Sys, p: int, next: ChildPc): Sys
    requires p in s.children
  {
    s.(children := s.children[p := Child(s.children[p].slot, next)])
  }

  ghost function Write(s: Sys, p: int, v: SlotState, next: ChildPc): Sys
    requires s.Shape() && p in s.children
  {
    Move(s, p, next).(table := s.table.(states := s.table.states[s.children[p].slot := v]))
  }

  ghost function Notify(s: Sys, p: int, next: ChildPc): Sys
    requires p in s.children
  {
    Move(s, p, next).(pending := true)
  }

  /** One step of child p; an accept that is interrupted leads back to line 82. */
  ghost function ChildNext(s: Sys, p: int, interrupted: bool): Sys
    requires s.Shape() && p in s.children
  {
    match s.children[p].pc
    case WriteIdle(_) => Write(s, p, Idle, NotifyIdle)
    case NotifyIdle => Notify(s, p, Accepting)
    case Accepting => Move(s, p, if interrupted then WriteIdle(Idle) else WriteBusy)
    case WriteBusy => Write(s, p, Busy, NotifyBusy)
    case NotifyBusy => Notify(s, p, Serving)
    case Serving => Move(s, p, WriteIdle(Busy))
  }

  /** The child exits (line 91) or is killed from outside, at any point. */
  ghost function Died(s: Sys, p: int): Sys { s.(children := s.children - {p}) }

  ghost predicate ChildStep(s: Sys, p: int, s': Sys)
    requires s.Shape()
  {
    && p in s.children
    && (s' == ChildNext(s, p, false) || s' == ChildNext(s, p, true) || s' == Died(s, p))
  }

  ghost predicate Next(limits: Limits, s: Sys, s': Sys)
    requires s.Shape()
  {
    ParentStep(limits, s, s') || exists p :: ChildStep(s, p, s')
  }

  /** Past a state with a bad index anything could happen. */
  ghost predicate StepAt(limits: Limits, run: seq<Sys>, k: nat)
    requires k + 1 < |run|
  {
    run[k].Shape() ==> Next(limits, run[k], run[k + 1])
  }

  /** A run of the program. */
  ghost predicate IsRun(limits: Limits, n: nat, run: seq<Sys>) {
    |run| > 0 && Init(n, run[0]) && forall k :: 0 <= k < |run| - 1 ==> StepAt(limits, run, k)
  }

  // ----- The invariant

  /** A live server owns the slot it writes to: the slot holds its pid, or is about to. */
  ghost predicate Owns(s: Sys, p: int, c: Child)
    requires s.Shape() && c.slot < s.N()
  {
    || s.table.pids[c.slot] == p
    || (s.pc.AddRecord? && s.pc.slot == c.slot && s.pc.pid == p)
  }

  ghost predicate Owned(s: Sys)
    requires s.Shape()
  {
    && FREE !in s.children
    && (forall p :: p in s.children ==> Owns(s, p, s.children[p]))
    && (s.pc.AddFork? ==> s.table.pids[s.pc.slot] == FREE && s.table.states[s.pc.slot] == s.seen[s.pc.slot] == Idle)
    && (s.pc.AddRecord? ==>
          s.table.pids[s.pc.slot] == FREE && s.seen[s.pc.slot] == Idle && s.pc.pid != FREE)
  }

  /** The parent has recorded the slot's state, or will look at it again before or after it next sleeps. */
  ghost predicate Noticed(s: Sys, c: Child)
    requires s.Shape() && c.slot < s.N()
  {
    || s.table.states[c.slot] == s.seen[c.slot]
    || c.pc.MidNotify()
    || s.pending
    || (s.pc.Scanning() && s.pc.k <= c.slot)
  }

  ghost predicate AllNoticed(s: Sys)
    requires s.Shape()
  {
    forall p :: p in s.children ==> Noticed(s, s.children[p])
  }

  /** The counters, or in a scan its partial counts, are the recorded states up to the drift. */
  ghost predicate Books(s: Sys)
    requires s.Shape()
  {
    var t := s.table;
    && !s.pc.OutOfBounds? && 0 <= t.idle
    && (s.pc.ScanRead? ==> t.pids[s.pc.k] != FREE)
    && (s.pc.DelKill? ==> t.pids[s.pc.j] != FREE)
    && if s.pc.Scanning() then
         && s.pc.idle == UsedAs(t.pids, s.seen, Idle, s.pc.k)
         && s.pc.busy == UsedAs(t.pids, s.seen, Busy, s.pc.k)
       else
         && t.idle == UsedAs(t.pids, s.seen, Idle, s.N()) - s.drift
         && t.busy == UsedAs(t.pids, s.seen, Busy, s.N()) + s.drift
  }

  /** Where the loops of a round are with respect to the limit they move towards. */
  ghost predicate Paced(limits: Limits, s: Sys) {
    var idle := s.table.idle;
    match s.pc
    case ShrinkHead(i) => limits.max <= idle && i - 1 <= idle - limits.max
    case DelAt(i, _) => i < idle - limits.max
    case DelKill(i, _) => i < idle - limits.max
    case AddHead(startup, i) => if startup then idle <= i <= limits.min else idle <= limits.min
    case AddFork(startup, i, _) => if startup then idle <= i < limits.min else i < limits.min - idle
    case AddRecord(startup, i, _, _) => if startup then idle <= i < limits.min else i < limits.min - idle
    case _ => true
  }

  ghost predicate Inv(limits: Limits, n: nat, s: Sys) {
    s.N() == n && s.Shape() && Owned(s) && AllNoticed(s) && Books(s) && Paced(limits, s)
  }

  lemma InitInv(limits: Limits, n: nat, s: Sys)
    requires Init(n, s)
    ensures Inv(limits, n, s)
  {
    UsedAsNone(s.table.pids, s.seen, Idle, n);
    UsedAsNone(s.table.pids, s.seen, Busy, n);
  }

  // ----- Every step keeps it

  lemma ProbeKeepsInv(limits: Limits, n: nat, s: Sys)
    requires Inv(limits, n, s) && s.pc.ScanProbe?
    ensures Inv(limits, n, Probe(limits, s))
  {
    var s' := Probe(limits, s);
    var k := s.pc.k;
    if k < n {
      UsedAsPoint(s.table.pids, s.seen, s'.table.pids, s'.seen, Idle, k, k);
      UsedAsPoint(s.table.pids, s.seen, s'.table.pids, s'.seen, Busy, k, k);
    }
  }

  lemma ReadStateKeepsInv(limits: Limits, n: nat, s: Sys)
    requires Inv(limits, n, s) && s.pc.ScanRead?
    ensures Inv(limits, n, ReadState(s))
  {
    var s' := ReadState(s);
    var k := s.pc.k;
    UsedAsPoint(s.table.pids, s.seen, s'.table.pids, s'.seen, Idle, k, k);
    UsedAsPoint(s.table.pids, s.seen, s'.table.pids, s'.seen, Busy, k, k);
  }

  lemma DelTestKeepsInv(limits: Limits, n: nat, s: Sys)
    requires Inv(limits, n, s) && s.pc.DelAt?
    ensures Inv(limits, n, DelTest(s))
  {
  }

  lemma KillKeepsInv(limits: Limits, n: nat, s: Sys)
    requires Inv(limits, n, s) && s.pc.DelKill?
    ensures Inv(limits, n, Kill(s))
  {
    var s' := Kill(s);
    UsedAsPoint(s.table.pids, s.seen, s'.table.pids, s'.seen, Idle, s.pc.j, n);
    UsedAsPoint(s.table.pids, s.seen, s'.table.pids, s'.seen, Busy, s.pc.j, n);
  }

  lemma AddTestKeepsInv(limits: Limits, n: nat, s: Sys)
    requires Inv(limits, n, s) && s.pc.AddHead?
    ensures Inv(limits, n, AddTest(limits, s))
  {
    AddTestKeepsBooks(limits, n, s);
  }

  lemma AddTestKeepsBooks(limits: Limits, n: nat, s: Sys)
    requires s.N() == n && s.Shape() && Books(s) && Paced(limits, s) && s.pc.AddHead?
    ensures AddTest(limits, s).Shape() && Books(AddTest(limits, s)) && Paced(limits, AddTest(limits, s))
  {
    var s' := AddTest(limits, s);
    UsedAsSplits(s.table.pids, s.seen, n);
    FreeSlotExists(s.table.pids);
    var slot := FirstFree(s.table.pids, 0);
    if slot < n {
      UsedAsPoint(s.table.pids, s.seen, s'.table.pids, s'.seen, Idle, slot, n);
      UsedAsPoint(s.table.pids, s.seen, s'.table.pids, s'.seen, Busy, slot, n);
    }
  }

  lemma ForkKeepsInv(limits: Limits, n: nat, s: Sys, pid: int)
    requires Inv(limits, n, s) && s.pc.AddFork? && pid != FREE && pid !in s.children
    ensures Inv(limits, n, Fork(s, pid))
  {
  }

  lemma RecordKeepsInv(limits: Limits, n: nat, s: Sys)
    requires Inv(limits, n, s) && s.pc.AddRecord?
    ensures Inv(limits, n, Record(s))
  {
    var s' := Record(s);
    UsedAsPoint(s.table.pids, s.seen, s'.table.pids, s'.seen, Idle, s.pc.slot, n);
    UsedAsPoint(s.table.pids, s.seen, s'.table.pids, s'.seen, Busy, s.pc.slot, n);
  }

  lemma ParentKeepsInv(limits: Limits, n: nat, s: Sys, pid: int)
    requires Inv(limits, n, s) && pid != FREE && pid !in s.children
    ensures Inv(limits, n, ParentNext(limits, s, pid))
  {
    match s.pc
    case ScanProbe(_, _, _) => ProbeKeepsInv(limits, n, s);
    case ScanRead(_, _, _) => ReadStateKeepsInv(limits, n, s);
    case DelAt(_, _) => DelTestKeepsInv(limits, n, s);
    case DelKill(_, _) => KillKeepsInv(limits, n, s);
    case AddHead(_, _) => AddTestKeepsInv(limits, n, s);
    case AddFork(_, _, _) => ForkKeepsInv(limits, n, s, pid);
    case AddRecord(_, _, _, _) => RecordKeepsInv(limits, n, s);
    case _ =>
  }

  lemma MoveKeepsInv(limits: Limits, n: nat, s: Sys, p: int, next: ChildPc)
    requires Inv(limits, n, s) && p in s.children && !s.children[p].pc.MidNotify()
    ensures Inv(limits, n, Move(s, p, next))
  {
  }

  lemma WriteKeepsInv(limits: Limits, n: nat, s: Sys, p: int, v: SlotState, next: ChildPc)
    requires Inv(limits, n, s) && p in s.children && next.MidNotify()
    ensures Inv(limits, n, Write(s, p, v, next))
  {
  }

  lemma NotifyKeepsInv(limits: Limits, n: nat, s: Sys, p: int, next: ChildPc)
    requires Inv(limits, n, s) && p in s.children
    ensures Inv(limits, n, Notify(s, p, next))
  {
  }

  lemma DiedKeepsInv(limits: Limits, n: nat, s: Sys, p: int)
    requires Inv(limits, n, s)
    ensures Inv(limits, n, Died(s, p))
  {
  }

  lemma ChildKeepsInv(limits: Limits, n: nat, s: Sys, p: int, s': Sys)
    requires Inv(limits, n, s) && ChildStep(s, p, s')
    ensures Inv(limits, n, s')
  {
    if s' == Died(s, p) {
      DiedKeepsInv(limits, n, s, p);
    } else {
      var interrupted := s' == ChildNext(s, p, true);
      match s.children[p].pc
      case WriteIdle(_) => WriteKeepsInv(limits, n, s, p, Idle, NotifyIdle);
      case NotifyIdle => NotifyKeepsInv(limits, n, s, p, Accepting);
      case Accepting => MoveKeepsInv(limits, n, s, p, if interrupted then WriteIdle(Idle) else WriteBusy);
      case WriteBusy => WriteKeepsInv(limits, n, s, p, Busy, NotifyBusy);
      case NotifyBusy => NotifyKeepsInv(limits, n, s, p, Serving);
      case Serving => MoveKeepsInv(limits, n, s, p, WriteIdle(Busy));
    }
  }

  lemma NextKeepsInv(limits: Limits, n: nat, s: Sys, s': Sys)
    requires Inv(limits, n, s) && Next(limits, s, s')
    ensures Inv(limits, n, s')
  {
    if ParentStep(limits, s, s') {
      var pid: int :| pid != FREE && pid !in s.children && s' == ParentNext(limits, s, pid);
      ParentKeepsInv(limits, n, s, pid);
    } else {
      var p :| ChildStep(s, p, s');
      ChildKeepsInv(limits, n, s, p, s');
    }
  }

  lemma {:induction false} RunInv(limits: Limits, n: nat, run: seq<Sys>, k: nat)
    requires IsRun(limits, n, run) && k < |run|
    ensures Inv(limits, n, run[k])
  {
    if k == 0 {
      InitInv(limits, n, run[0]);
    } else {
      RunInv(limits, n, run, k - 1);
      assert StepAt(limits, run, k - 1);
      NextKeepsInv(limits, n, run[k - 1], run[k]);
    }
  }
}
