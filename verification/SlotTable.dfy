/**
 The parent's view of the server pool of dynamic_pool.c: the slot table (pid and state of each
 slot) and the two private counters, with the sequential meaning of the four operations on it.
 The class in ServerPool.dfy and the concurrent protocol in PoolProtocol.dfy share it.
 */
module SlotTable {

  /** The pid of a slot that no server occupies. */
  const FREE := -1

  datatype SlotState = Idle | Busy

  /** The array of server_st, split into its two columns, and the counters of the parent. */
  datatype Table = Table(pids: seq<int>, states: seq<SlotState>, idle: int, busy: int) {
    predicate Shaped() { |pids| == |states| }

    /** The counters together account for every occupied slot. */
    predicate Accounted() {
      && Shaped()
      && 0 <= idle
      && 0 <= busy
      && idle + busy == Occupied(pids, |pids|)
    }

    /** The counters are right: one for each occupied slot, by its present state. */
    predicate Exact() {
      && Shaped()
      && idle == UsedAs(pids, states, Idle, |pids|)
      && busy == UsedAs(pids, states, Busy, |pids|)
    }

    /** Slot k holds a server that shows IDLE. */
    predicate IdleAt(k: nat)
      requires Shaped() && k < |pids|
    {
      pids[k] != FREE && states[k] == Idle
    }
  }

  datatype Limits = Limits(min: nat, max: nat)

  /** How many of the first k slots are occupied. */
  function Occupied(pids: seq<int>, k: nat): nat
    requires k <= |pids|
  {
    if k == 0 then 0 else Occupied(pids, k - 1) + if pids[k - 1] != FREE then 1 else 0
  }

  /** How many of the first k slots are occupied and shown as v by view. */
  function UsedAs(pids: seq<int>, view: seq<SlotState>, v: SlotState, k: nat): nat
    requires k <= |pids| && k <= |view|
  {
    if k == 0 then 0
    else UsedAs(pids, view, v, k - 1) + if pids[k - 1] != FREE && view[k - 1] == v then 1 else 0
  }

  /** The first free slot at or after k, or the length of the table. */
  function FirstFree(pids: seq<int>, k: nat): (slot: nat)
    requires k <= |pids|
    ensures k <= slot <= |pids|
    ensures slot < |pids| ==> pids[slot] == FREE
    ensures forall j :: k <= j < slot ==> pids[j] != FREE
    decreases |pids| - k
  {
    if k == |pids| || pids[k] == FREE then k else FirstFree(pids, k + 1)
  }

  /** The first occupied slot in state Idle at or after k, or the length of the table. */
  function FirstIdle(pids: seq<int>, states: seq<SlotState>, k: nat): (slot: nat)
    requires |pids| == |states| && k <= |pids|
    ensures k <= slot <= |pids|
    ensures slot < |pids| ==> pids[slot] != FREE && states[slot] == Idle
    ensures forall j :: k <= j < slot ==> pids[j] == FREE || states[j] != Idle
    decreases |pids| - k
  {
    if k == |pids| || (pids[k] != FREE && states[k] == Idle) then k else FirstIdle(pids, states, k + 1)
  }

  // ----- Counting

  lemma {:induction false} UsedAsSplits(pids: seq<int>, view: seq<SlotState>, k: nat)
    requires k <= |pids| && k <= |view|
    ensures UsedAs(pids, view, Idle, k) + UsedAs(pids, view, Busy, k) == Occupied(pids, k)
  {
    if k == 0 {
    } else {
      UsedAsSplits(pids, view, k - 1);
    }
  }

  /** Changing one slot changes the count by what that slot contributes. */
  lemma {:induction false} UsedAsPoint(pids: seq<int>, view: seq<SlotState>,
                                       pids': seq<int>, view': seq<SlotState>, v: SlotState, j: nat, k: nat)
    requires k <= |pids| == |pids'| && |view| == |view'| == |pids| && j < |pids|
    requires forall i :: 0 <= i < |pids| && i != j ==> pids[i] == pids'[i]
    requires forall i :: 0 <= i < |pids| && i != j && pids[i] != FREE ==> view[i] == view'[i]
    ensures UsedAs(pids', view', v, k) ==
            UsedAs(pids, view, v, k)
            - (if j < k && pids[j] != FREE && view[j] == v then 1 else 0)
            + (if j < k && pids'[j] != FREE && view'[j] == v then 1 else 0)
  {
    if k == 0 {
    } else {
      UsedAsPoint(pids, view, pids', view', v, j, k - 1);
    }
  }

  lemma {:induction false} OccupiedPoint(pids: seq<int>, pids': seq<int>, j: nat, k: nat)
    requires k <= |pids| == |pids'| && j < |pids|
    requires forall i :: 0 <= i < |pids| && i != j ==> pids[i] == pids'[i]
    ensures Occupied(pids', k) ==
            Occupied(pids, k)
            - (if j < k && pids[j] != FREE then 1 else 0)
            + (if j < k && pids'[j] != FREE then 1 else 0)
  {
    if k == 0 {
    } else {
      OccupiedPoint(pids, pids', j, k - 1);
    }
  }

  /** A stretch with no free slot is fully counted. */
  lemma {:induction false} OccupiedFull(pids: seq<int>, k: nat)
    requires k <= |pids|
    ensures Occupied(pids, k) <= k
    ensures Occupied(pids, k) == k <==> forall j :: 0 <= j < k ==> pids[j] != FREE
  {
    if k == 0 {
    } else {
      OccupiedFull(pids, k - 1);
    }
  }

  lemma {:induction false} OccupiedNone(pids: seq<int>, k: nat)
    requires k <= |pids| && forall j :: 0 <= j < k ==> pids[j] == FREE
    ensures Occupied(pids, k) == 0
  {
    if k == 0 {
    } else {
      OccupiedNone(pids, k - 1);
    }
  }

  lemma {:induction false} UsedAsAll(pids: seq<int>, view: seq<SlotState>, v: SlotState, k: nat)
    requires k <= |pids| && k <= |view| && forall j :: 0 <= j < k ==> pids[j] != FREE && view[j] == v
    ensures UsedAs(pids, view, v, k) == k
  {
    if k == 0 {
    } else {
      UsedAsAll(pids, view, v, k - 1);
    }
  }

  /** The search of add_1_sever stays inside the table exactly when some slot is free. */
  lemma FreeSlotExists(pids: seq<int>)
    ensures FirstFree(pids, 0) < |pids| <==> Occupied(pids, |pids|) < |pids|
  {
    OccupiedFull(pids, |pids|);
  }

  lemma {:induction false} UsedAsPositive(pids: seq<int>, view: seq<SlotState>, v: SlotState, j: nat, k: nat)
    requires j < k <= |pids| && k <= |view|
    requires pids[j] != FREE && view[j] == v
    ensures UsedAs(pids, view, v, k) > 0
  {
    if j == k - 1 {
    } else {
      UsedAsPositive(pids, view, v, j, k - 1);
    }
  }

  lemma {:induction false} UsedAsNone(pids: seq<int>, view: seq<SlotState>, v: SlotState, k: nat)
    requires k <= |pids| && k <= |view|
    requires forall j :: 0 <= j < k ==> pids[j] == FREE || view[j] != v
    ensures UsedAs(pids, view, v, k) == 0
  {
    if k == 0 {
    } else {
      UsedAsNone(pids, view, v, k - 1);
    }
  }

  // ----- The four operations, run with no child acting meanwhile

  /** add_1_sever, with the pid that fork returns; the result is the return value. */
  function AddServer(t: Table, pid: int): (Table, int)
    requires t.Accounted()
  {
    if t.idle + t.busy >= |t.pids| then (t, -1)
    else
      FreeSlotExists(t.pids);
      var slot := FirstFree(t.pids, 0);
      (Table(t.pids[slot := pid], t.states[slot := Idle], t.idle + 1, t.busy), 0)
  }

  /** del_1_server. */
  function DelServer(t: Table): (Table, int)
    requires t.Shaped()
  {
    if t.idle == 0 then (t, -1)
    else
      var slot := FirstIdle(t.pids, t.states, 0);
      if slot == |t.pids| then (t, 0)
      else (t.(pids := t.pids[slot := FREE], idle := t.idle - 1), 0)
  }

  /** The table after scan_pool has dropped the first k slots whose server is gone. */
  function Reaped(pids: seq<int>, alive: set<int>, k: nat): (r: seq<int>)
    requires k <= |pids|
    ensures |r| == |pids|
    ensures forall j :: 0 <= j < |pids| ==> r[j] == if j < k && pids[j] !in alive then FREE else pids[j]
  {
    if k == 0 then pids
    else
      var r := Reaped(pids, alive, k - 1);
      if pids[k - 1] in alive then r else r[k - 1 := FREE]
  }

  /** scan_pool, where alive holds the pids to which kill(pid, 0) succeeds. */
  function Scan(t: Table, alive: set<int>): (r: Table)
    requires t.Shaped()
    ensures r.Exact() && r.Accounted()
  {
    var pids := Reaped(t.pids, alive, |t.pids|);
    UsedAsSplits(pids, t.states, |pids|);
    Table(pids, t.states, UsedAs(pids, t.states, Idle, |pids|), UsedAs(pids, t.states, Busy, |pids|))
  }

  lemma AddServerKeeps(t: Table, pid: int)
    requires t.Accounted() && pid != FREE
    ensures AddServer(t, pid).0.Accounted()
    ensures t.Exact() ==> AddServer(t, pid).0.Exact()
    ensures |AddServer(t, pid).0.pids| == |t.pids|
  {
    if t.idle + t.busy < |t.pids| {
      FreeSlotExists(t.pids);
      var slot := FirstFree(t.pids, 0);
      var t' := AddServer(t, pid).0;
      UsedAsPoint(t.pids, t.states, t'.pids, t'.states, Idle, slot, |t.pids|);
      UsedAsPoint(t.pids, t.states, t'.pids, t'.states, Busy, slot, |t.pids|);
      OccupiedPoint(t.pids, t'.pids, slot, |t.pids|);
    }
  }

  lemma DelServerKeeps(t: Table)
    requires t.Accounted()
    ensures DelServer(t).0.Accounted()
    ensures t.Exact() ==> DelServer(t).0.Exact()
    ensures |DelServer(t).0.pids| == |t.pids|
  {
    var slot := FirstIdle(t.pids, t.states, 0);
    if t.idle > 0 && slot < |t.pids| {
      var t' := DelServer(t).0;
      UsedAsPoint(t.pids, t.states, t'.pids, t'.states, Idle, slot, |t.pids|);
      UsedAsPoint(t.pids, t.states, t'.pids, t'.states, Busy, slot, |t.pids|);
      OccupiedPoint(t.pids, t'.pids, slot, |t.pids|);
    }
  }

  /** With exact counters a positive idle count means that del_1_server finds a slot. */
  lemma DelServerFinds(t: Table)
    requires t.Exact() && t.idle > 0
    ensures FirstIdle(t.pids, t.states, 0) < |t.pids|
    ensures DelServer(t).0.idle == t.idle - 1 && DelServer(t).0.busy == t.busy
  {
    if FirstIdle(t.pids, t.states, 0) == |t.pids| {
      UsedAsNone(t.pids, t.states, Idle, |t.pids|);
    }
  }

  // ----- The adjustment of one round

  /** The pids that fork returns, one for each iteration of an adding loop. */
  type ForkPids = f: nat -> int | forall i :: f(i) != FREE witness i => 1

  /** The deleting loop of a round: its bound is read again before every iteration. */
  function ShrinkLoop(t: Table, limits: Limits, i: nat): Table
    requires t.Accounted()
    decreases t.idle - limits.max - i
  {
    if i < t.idle - limits.max then
      DelServerKeeps(t);
      ShrinkLoop(DelServer(t).0, limits, i + 1)
    else t
  }

  /** The adding loop of a round. */
  function GrowLoop(t: Table, limits: Limits, fork: ForkPids, i: nat): Table
    requires t.Accounted()
    decreases limits.min - t.idle - i
  {
    if i < limits.min - t.idle then
      AddServerKeeps(t, fork(i));
      GrowLoop(AddServer(t, fork(i)).0, limits, fork, i + 1)
    else t
  }

  /** What a round does after its scan. */
  function Adjust(t: Table, limits: Limits, fork: ForkPids): Table
    requires t.Accounted()
  {
    if t.idle > limits.max then ShrinkLoop(t, limits, 0)
    else if t.idle < limits.min then GrowLoop(t, limits, fork, 0)
    else t
  }
}
