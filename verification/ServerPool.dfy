/**
 The slot table of dynamic_pool.c as the parent updates it in place. Each method is the C function of
 the same name with no child acting meanwhile; PoolProtocol.dfy lets the children interfere.
 */
module ServerPool {
  import opened PoolRounds
  import opened SlotTable

  class Pool {
    const pid: array<int>
    const state: array<SlotState>
    var idleCount: int
    var busyCount: int

    ghost function View(): Table
      reads this, pid, state
    {
      Table(pid[..], state[..], idleCount, busyCount)
    }

    ghost predicate Valid()
      reads this, pid, state
    {
      View().Accounted()
    }

    /** The start of main: every slot is marked free. */
    constructor (n: nat)
      ensures Valid() && fresh(pid) && fresh(state)
      ensures pid.Length == n && Occupied(pid[..], n) == 0
      ensures idleCount == busyCount == 0
    {
      pid := new int[n];
      state := new SlotState[n](_ => Idle);
      idleCount, busyCount := 0, 0;
      new;
      for i := 0 to n
        invariant forall j :: 0 <= j < i ==> pid[j] == FREE
        invariant fresh(pid) && fresh(state) && idleCount == busyCount == 0
      {
        pid[i] := FREE;
      }
      OccupiedNone(pid[..], n);
    }

    /** add_1_sever: newPid is what fork returns to the parent. */
    method Add1Server(newPid: int) returns (ret: int)
      requires Valid() && newPid != FREE
      modifies this, pid, state
      ensures Valid()
      ensures (View(), ret) == AddServer(old(View()), newPid)
      ensures old(idleCount + busyCount) < pid.Length ==>
                && ret == 0 && idleCount == old(idleCount) + 1 && busyCount == old(busyCount)
                && exists slot :: 0 <= slot < pid.Length && old(pid[slot]) == FREE
                     && (forall j :: 0 <= j < slot ==> old(pid[j]) != FREE)
                     && pid[..] == old(pid[..])[slot := newPid] && state[..] == old(state[..])[slot := Idle]
      ensures old(idleCount + busyCount) >= pid.Length ==> ret == -1 && View() == old(View())
    {
      AddServerKeeps(View(), newPid);
      if idleCount + busyCount >= pid.Length { return -1; }
      FreeSlotExists(pid[..]);
      var slot := 0;
      while slot < pid.Length && pid[slot] != FREE
        invariant 0 <= slot <= pid.Length
        invariant FirstFree(pid[..], slot) == FirstFree(pid[..], 0)
        invariant forall j :: 0 <= j < slot ==> pid[j] != FREE
      {
        slot := slot + 1;
      }
      state[slot] := Idle;
      pid[slot] := newPid;
      idleCount := idleCount + 1;
      return 0;
    }

    /** del_1_server. */
    method Del1Server() returns (ret: int)
      requires Valid()
      modifies this, pid
      ensures Valid()
      ensures (View(), ret) == DelServer(old(View()))
      ensures ret == if old(idleCount) == 0 then -1 else 0
      ensures var t := old(View());
              if t.idle == 0 || forall j :: 0 <= j < pid.Length ==> !t.IdleAt(j) then View() == t
              else exists slot :: 0 <= slot < pid.Length && t.IdleAt(slot)
                     && (forall j :: 0 <= j < slot ==> !t.IdleAt(j))
                     && View() == t.(pids := t.pids[slot := FREE], idle := t.idle - 1)
    {
      ghost var t := View();
      DelServerKeeps(t);
      if idleCount == 0 { return -1; }
      var i := 0;
      while i < pid.Length
        invariant 0 <= i <= pid.Length && View() == old(View())
        invariant FirstIdle(pid[..], state[..], i) == FirstIdle(pid[..], state[..], 0)
        invariant forall j :: 0 <= j < i ==> !t.IdleAt(j)
      {
        if pid[i] != FREE && state[i] == Idle {
          assert t.IdleAt(i);
          pid[i] := FREE;
          idleCount := idleCount - 1;
          assert View() == t.(pids := t.pids[i := FREE], idle := t.idle - 1);
          return 0;
        }
        i := i + 1;
      }
      return 0;
    }

    /** scan_pool: alive holds the pids to which kill(pid, 0) succeeds. */
    method ScanPool(alive: set<int>)
      requires Valid()
      modifies this, pid
      ensures Valid()
      ensures View() == Scan(old(View()), alive)
      ensures forall j :: 0 <= j < pid.Length ==> pid[j] == if old(pid[j]) in alive then old(pid[j]) else FREE
      ensures idleCount == UsedAs(pid[..], state[..], Idle, pid.Length)
      ensures busyCount == UsedAs(pid[..], state[..], Busy, pid.Length)
    {
      var idle, busy := 0, 0;
      ghost var reaped := Reaped(pid[..], alive, pid.Length);
      for i := 0 to pid.Length
        invariant forall k :: 0 <= k < i ==> pid[k] == reaped[k]
        invariant forall k :: i <= k < pid.Length ==> pid[k] == old(pid[k])
        invariant idle == UsedAs(reaped, state[..], Idle, i)
        invariant busy == UsedAs(reaped, state[..], Busy, i)
      {
        assert reaped[i] == if pid[i] in alive then pid[i] else FREE;
        if pid[i] == FREE { continue; }
        if pid[i] !in alive {
          pid[i] := FREE;
          continue;
        }
        if state[i] == Idle {
          idle := idle + 1;
        } else {
          busy := busy + 1;
        }
      }
      assert pid[..] == reaped;
      idleCount, busyCount := idle, busy;
      assert View() == Scan(old(View()), alive);
    }

    /** Lines 227 to 229 of main: the loop bound is evaluated afresh while i grows. */
    method DeleteExcess(limits: Limits)
      requires Valid()
      modifies this, pid
      ensures Valid()
      ensures View() == ShrinkLoop(old(View()), limits, 0)
    {
      var i := 0;
      while i < idleCount - limits.max
        invariant 0 <= i && Valid()
        invariant ShrinkLoop(View(), limits, i) == ShrinkLoop(old(View()), limits, 0)
      {
        var _ := Del1Server();
        i := i + 1;
      }
    }

    /** Lines 231 to 233 of main, likewise. */
    method AddMissing(limits: Limits, fork: ForkPids)
      requires Valid()
      modifies this, pid, state
      ensures Valid()
      ensures View() == GrowLoop(old(View()), limits, fork, 0)
    {
      var i := 0;
      while i < limits.min - idleCount
        invariant 0 <= i && Valid()
        invariant GrowLoop(View(), limits, fork, i) == GrowLoop(old(View()), limits, fork, 0)
      {
        var _ := Add1Server(fork(i));
        i := i + 1;
      }
    }

    /** Lines 226 to 234 of main. */
    method AdjustPool(limits: Limits, fork: ForkPids)
      requires Valid()
      modifies this, pid, state
      ensures Valid()
      ensures View() == Adjust(old(View()), limits, fork)
      ensures old(View().Exact()) ==>
                && View().Exact() && busyCount == old(busyCount)
                && idleCount == RoundIdle(limits, old(idleCount), old(Free(View())))
    {
      if View().Exact() {
        ShrinkLoopExact(View(), limits, 0);
        GrowLoopExact(View(), limits, fork, 0);
      }
      if idleCount > limits.max {
        DeleteExcess(limits);
      } else if idleCount < limits.min {
        AddMissing(limits, fork);
      }
    }
  }
}
