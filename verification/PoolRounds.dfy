/** What the adjusting loops of dynamic_pool.c do in rounds that no child disturbs. */
module PoolRounds {
  import opened SlotTable

  function Free(t: Table): int
    requires t.Shaped()
  {
    |t.pids| - Occupied(t.pids, |t.pids|)
  }

  function Min(a: int, b: int): int { if a <= b then a else b }

  /** How many servers a deficit or an excess of d moves in one round: half, rounded up. */
  function HalfUp(d: int): nat { if d <= 0 then 0 else (d + 1) / 2 }

  /** t' has every server of t, in the same slot and state. */
  ghost predicate Extends(t: Table, t': Table) {
    && t.Shaped() && t'.Shaped() && |t.pids| == |t'.pids|
    && forall j :: 0 <= j < |t.pids| && t.pids[j] != FREE ==> t'.pids[j] == t.pids[j] && t'.states[j] == t.states[j]
  }

  /** t' lacks only servers that were idle in t. */
  ghost predicate DropsIdle(t: Table, t': Table) {
    && t.Shaped() && t'.states == t.states && |t.pids| == |t'.pids|
    && forall j :: 0 <= j < |t.pids| && t'.pids[j] != t.pids[j] ==> t'.pids[j] == FREE && t.states[j] == Idle
  }

  /** A deficit of d with f free slots adds exactly min(ceil(d / 2), f) servers, and disturbs none. */
  lemma {:induction false} GrowLoopExact(t: Table, limits: Limits, fork: ForkPids, i: nat)
    requires t.Exact() && t.Accounted()
    ensures var t' := GrowLoop(t, limits, fork, i);
            && t'.idle == t.idle + Min(HalfUp(limits.min - t.idle - i), Free(t))
            && t'.busy == t.busy && t'.Exact() && t'.Accounted() && Extends(t, t')
    decreases limits.min - t.idle - i
  {
    OccupiedFull(t.pids, |t.pids|);
    if i >= limits.min - t.idle {
    } else {
      AddServerKeeps(t, fork(i));
      GrowLoopExact(AddServer(t, fork(i)).0, limits, fork, i + 1);
    }
  }

  /** An excess of e removes exactly ceil(e / 2) servers, all of them idle. */
  lemma {:induction false} ShrinkLoopExact(t: Table, limits: Limits, i: nat)
    requires t.Exact() && t.Accounted()
    ensures var t' := ShrinkLoop(t, limits, i);
            && t'.idle == t.idle - HalfUp(t.idle - limits.max - i)
            && t'.busy == t.busy && t'.Exact() && t'.Accounted() && DropsIdle(t, t')
    decreases t.idle - limits.max - i
  {
    if i >= t.idle - limits.max {
    } else {
      DelServerKeeps(t);
      DelServerFinds(t);
      ShrinkLoopExact(DelServer(t).0, limits, i + 1);
    }
  }

  // ----- Repeated rounds

  /** A whole round in which every server is alive and none acts. */
  function Round(t: Table, limits: Limits, fork: ForkPids): Table
    requires t.Shaped()
  {
    Adjust(Scan(t, set p | p in t.pids), limits, fork)
  }

  /** Tables before, between and after consecutive rounds, starting from right counters. */
  ghost predicate AreRounds(tables: seq<Table>, limits: Limits) {
    && |tables| > 0 && tables[0].Exact() && tables[0].Accounted()
    && forall k :: 0 < k < |tables| ==> IsRound(tables[k - 1], limits, tables[k])
  }

  ghost predicate IsRound(t: Table, limits: Limits, t': Table) {
    t.Shaped() && exists fork: ForkPids :: t' == Round(t, limits, fork)
  }

  /** How far an idle count is outside [min, max]. */
  function Outside(limits: Limits, idle: int): nat {
    if idle > limits.max then idle - limits.max else if idle < limits.min then limits.min - idle else 0
  }

  function Distance(t: Table, limits: Limits): nat { Outside(limits, t.idle) }

  /** What a round makes of an idle count, with free slots left. */
  function RoundIdle(limits: Limits, idle: int, free: int): int {
    if idle > limits.max then idle - HalfUp(idle - limits.max)
    else if idle < limits.min then idle + Min(HalfUp(limits.min - idle), free)
    else idle
  }

  lemma RoundExact(t: Table, limits: Limits, fork: ForkPids)
    requires t.Exact() && t.Accounted()
    ensures Scan(t, set p | p in t.pids) == t
    ensures Round(t, limits, fork).Exact() && Round(t, limits, fork).Accounted()
    ensures Round(t, limits, fork).busy == t.busy
    ensures Round(t, limits, fork).idle == RoundIdle(limits, t.idle, Free(t))
    ensures |Round(t, limits, fork).pids| == |t.pids|
  {
    assert Reaped(t.pids, set p | p in t.pids, |t.pids|) == t.pids;
    if t.idle > limits.max {
      ShrinkLoopExact(t, limits, 0);
    } else if t.idle < limits.min {
      GrowLoopExact(t, limits, fork, 0);
    }
  }

  /** Enough free slots to reach the minimum. */
  ghost predicate Roomy(t: Table, limits: Limits) { t.Shaped() && limits.min - t.idle <= Free(t) }

  /** A round halves the distance, rounding down, and leaves enough room. */
  lemma RoundHalves(t: Table, limits: Limits, fork: ForkPids)
    requires t.Exact() && t.Accounted() && limits.min <= limits.max && Roomy(t, limits)
    ensures Distance(Round(t, limits, fork), limits) == Distance(t, limits) / 2
    ensures Roomy(Round(t, limits, fork), limits)
  {
    RoundExact(t, limits, fork);
    OccupiedFull(t.pids, |t.pids|);
  }

  function Pow2(k: nat): (p: nat)
    ensures p > 0
  {
    if k == 0 then 1 else 2 * Pow2(k - 1)
  }

  /** The rounds that halving takes to bring d to 0: the floor of log2 d, plus 1. */
  function RoundsNeeded(d: nat): (k: nat)
    ensures d == 0 ==> k == 0
    ensures d > 0 ==> k > 0 && Pow2(k - 1) <= d < Pow2(k)
  {
    if d == 0 then 0 else 1 + RoundsNeeded(d / 2)
  }

  /** d halved k times, rounding down. */
  function Halved(d: nat, k: nat): nat { if k == 0 then d else Halved(d, k - 1) / 2 }

  lemma {:induction false} HalvedFirst(d: nat, k: nat)
    requires k > 0
    ensures Halved(d, k) == Halved(d / 2, k - 1)
  {
    if k == 1 {
    } else {
      HalvedFirst(d, k - 1);
    }
  }

  lemma {:induction false} HalvedToZero(d: nat, k: nat)
    ensures Halved(d, k) == 0 <==> k >= RoundsNeeded(d)
  {
    if k == 0 {
    } else {
      HalvedFirst(d, k);
      HalvedToZero(d / 2, k - 1);
    }
  }

  lemma {:induction false} RoundsHalve(tables: seq<Table>, limits: Limits, k: nat)
    requires AreRounds(tables, limits) && limits.min <= limits.max && Roomy(tables[0], limits)
    requires k < |tables|
    ensures tables[k].Exact() && tables[k].Accounted() && Roomy(tables[k], limits)
    ensures Distance(tables[k], limits) == Halved(Distance(tables[0], limits), k)
    decreases k
  {
    if k == 0 {
    } else {
      RoundsHalve(tables, limits, k - 1);
      assert IsRound(tables[k - 1], limits, tables[k]);
      var fork: ForkPids :| tables[k] == Round(tables[k - 1], limits, fork);
      RoundExact(tables[k - 1], limits, fork);
      RoundHalves(tables[k - 1], limits, fork);
    }
  }

  /**
   With room to grow, undisturbed rounds bring the idle count into [min, max] in exactly
   floor(log2(distance)) + 1 rounds, no fewer, and keep it there.
   */
  lemma RoundsConverge(tables: seq<Table>, limits: Limits, k: nat)
    requires AreRounds(tables, limits) && limits.min <= limits.max && Roomy(tables[0], limits)
    requires k < |tables|
    ensures limits.min <= tables[k].idle <= limits.max <==> k >= RoundsNeeded(Distance(tables[0], limits))
  {
    RoundsHalve(tables, limits, k);
    HalvedToZero(Distance(tables[0], limits), k);
  }
}
