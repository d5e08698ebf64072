/**
 One client of epoll/epoll_eplt_server.c (level-triggered) and of epoll/epoll_epet_test_server.c
 (edge-triggered): the two differ only in when epoll_wait reports the fd again after a single read.
 The end of the stream is left to EventLoop.dfy. Assumptions: as there. A read may take fewer bytes than wait
 and fit the buffer; what rests on longer reads says so by ReadsFully or ReadsTake.
 */
module Readiness {
  import opened ByteTypes
  import opened EventLoop
  import opened Sequences

  /**
   armed: bytes arrived since the last report. reported: the fd is in the events array, its read still to
   come. edges and turns count the arrivals and the reads.
   */
  datatype Watch = Watch(x: Conn, armed: bool, reported: bool, edges: nat, turns: nat)

  datatype Mode = LevelTriggered | EdgeTriggered

  ghost predicate Init(w: Watch) {
    w == Watch(Conn(0, [], [], [], false), false, false, 0, 0)
  }

  ghost predicate Arrive(w: Watch, w': Watch, bytes: seq<byte>) {
    && bytes != []
    && w' == w.(x := w.x.(arrived := w.x.arrived + bytes, unread := w.x.unread + bytes), armed := true,
                edges := w.edges + 1)
  }

  ghost predicate Report(mode: Mode, w: Watch, w': Watch) {
    && !w.reported && w.x.unread != [] && (mode.EdgeTriggered? ==> w.armed)
    && w' == w.(reported := true, armed := false)
  }

  /** One read of n bytes and the write that echoes them. */
  function Echoed(w: Watch, n: nat): Watch
    requires n <= |w.x.unread|
  {
    w.(x := w.x.(echoed := w.x.echoed + w.x.unread[..n], unread := w.x.unread[n..]), reported := false,
       turns := w.turns + 1)
  }

  ghost predicate Read(bufSize: nat, w: Watch, w': Watch) {
    w.reported && exists n: nat :: 1 <= n <= |w.x.unread| && n <= bufSize && w' == Echoed(w, n)
  }

  ghost predicate ServerStep(mode: Mode, bufSize: nat, w: Watch, w': Watch) {
    Report(mode, w, w') || Read(bufSize, w, w')
  }

  ghost predicate Next(mode: Mode, bufSize: nat, w: Watch, w': Watch) {
    (exists bytes :: Arrive(w, w', bytes)) || ServerStep(mode, bufSize, w, w')
  }

  ghost predicate IsRun(mode: Mode, bufSize: nat, run: seq<Watch>) {
    && bufSize > 0 && |run| > 0 && Init(run[0])
    && forall k :: 0 <= k < |run| - 1 ==> Next(mode, bufSize, run[k], run[k + 1])
  }

  function Bit(b: bool): nat { if b then 1 else 0 }

  ghost predicate Inv(mode: Mode, bufSize: nat, w: Watch) {
    && w.x.Conserved()
    && (w.reported ==> w.x.unread != [])
    && |w.x.echoed| <= bufSize * w.turns
    && (mode.EdgeTriggered? ==> w.turns + Bit(w.armed) + Bit(w.reported) <= w.edges)
  }

  lemma EchoedKeeps(w: Watch, n: nat)
    requires n <= |w.x.unread| && w.x.Conserved()
    ensures Echoed(w, n).x.Conserved() && |Echoed(w, n).x.echoed| == |w.x.echoed| + n
  {
    assert w.x.unread == w.x.unread[..n] + w.x.unread[n..];
  }

  lemma ReadKeepsInv(mode: Mode, bufSize: nat, w: Watch, w': Watch)
    requires Inv(mode, bufSize, w) && Read(bufSize, w, w')
    ensures Inv(mode, bufSize, w')
  {
    var n: nat :| 1 <= n <= |w.x.unread| && n <= bufSize && w' == Echoed(w, n);
    EchoedKeeps(w, n);
    MulStep(bufSize, w.turns);
  }

  lemma OtherKeepsInv(mode: Mode, bufSize: nat, w: Watch, w': Watch)
    requires Inv(mode, bufSize, w) && (Report(mode, w, w') || exists bytes :: Arrive(w, w', bytes))
    ensures Inv(mode, bufSize, w')
  {
  }

  lemma {:induction false} RunInv(mode: Mode, bufSize: nat, run: seq<Watch>, k: nat)
    requires IsRun(mode, bufSize, run) && k < |run|
    ensures Inv(mode, bufSize, run[k])
  {
    if k == 0 {
    } else {
      RunInv(mode, bufSize, run, k - 1);
      var w, w' := run[k - 1], run[k];
      assert Next(mode, bufSize, w, w');
      if Read(bufSize, w, w') { ReadKeepsInv(mode, bufSize, w, w'); } else { OtherKeepsInv(mode, bufSize, w, w'); }
    }
  }

  /** In both modes, what was echoed followed by what waits is what arrived. */
  lemma EchoConserves(mode: Mode, bufSize: nat, run: seq<Watch>, k: nat)
    requires IsRun(mode, bufSize, run) && k < |run|
    ensures run[k].x.arrived == run[k].x.echoed + run[k].x.unread
  {
    RunInv(mode, bufSize, run, k);
  }

  /** The server cannot move until more bytes arrive. */
  ghost predicate Stalled(mode: Mode, bufSize: nat, w: Watch) {
    forall w' :: !ServerStep(mode, bufSize, w, w')
  }

  /** Level-triggered: the server stops only when it has echoed everything. */
  lemma LevelTriggeredDrains(bufSize: nat, run: seq<Watch>, k: nat)
    requires IsRun(LevelTriggered, bufSize, run) && k < |run|
    ensures Stalled(LevelTriggered, bufSize, run[k]) <==> run[k].x.echoed == run[k].x.arrived
  {
    RunInv(LevelTriggered, bufSize, run, k);
    var w := run[k];
    if w.x.unread != [] {
      assert |w.x.arrived| > |w.x.echoed|;
      if w.reported {
        assert Read(bufSize, w, Echoed(w, 1));
        assert ServerStep(LevelTriggered, bufSize, w, Echoed(w, 1));
      } else {
        assert ServerStep(LevelTriggered, bufSize, w, w.(reported := true, armed := false));
      }
    }
  }

  /** Edge-triggered: at most one buffer full is echoed for each arrival. */
  lemma EdgeTriggeredBound(bufSize: nat, run: seq<Watch>, k: nat)
    requires IsRun(EdgeTriggered, bufSize, run) && k < |run|
    ensures |run[k].x.echoed| <= bufSize * run[k].edges
  {
    RunInv(EdgeTriggered, bufSize, run, k);
    var w := run[k];
    MulMono(bufSize, w.turns, w.edges);
  }

  /** So a stalled edge-triggered server may have bytes left: at least those beyond a buffer for each arrival. */
  lemma EdgeTriggeredLeaves(bufSize: nat, run: seq<Watch>, k: nat)
    requires IsRun(EdgeTriggered, bufSize, run) && k < |run|
    ensures |run[k].x.unread| >= |run[k].x.arrived| - bufSize * run[k].edges
  {
    EdgeTriggeredBound(bufSize, run, k);
    EchoConserves(EdgeTriggered, bufSize, run, k);
  }

  // ----- Without arrivals

  /** From run[a] to run[b] nothing arrives. */
  ghost predicate Undisturbed(mode: Mode, bufSize: nat, run: seq<Watch>, a: nat, b: nat) {
    a <= b < |run| && forall k :: a <= k < b ==> ServerStep(mode, bufSize, run[k], run[k + 1])
  }

  /**
   While nothing arrives, the server takes at most two steps for each byte that waits, and reads no more
   often than there are bytes, nor less often than buffers to fill with what it takes.
   */
  lemma {:induction false} ReadsShrink(mode: Mode, bufSize: nat, run: seq<Watch>, a: nat, b: nat)
    requires IsRun(mode, bufSize, run) && Undisturbed(mode, bufSize, run, a, b)
    ensures var turns := run[b].turns - run[a].turns; var taken := |run[a].x.unread| - |run[b].x.unread|;
            && 0 <= turns <= taken <= bufSize * turns
            && b - a + Bit(run[a].reported) <= 2 * taken + Bit(run[b].reported)
    ensures b - a <= 2 * |run[a].x.unread|
    decreases b
  {
    RunInv(mode, bufSize, run, b);
    if a == b {
    } else {
      ReadsShrink(mode, bufSize, run, a, b - 1);
      assert ServerStep(mode, bufSize, run[b - 1], run[b]);
      MulStep(bufSize, run[b - 1].turns - run[a].turns);
    }
  }

  // ----- Full reads

  /** A read that fills the buffer or takes all there is. */
  ghost predicate FullRead(bufSize: nat, w: Watch, w': Watch) {
    && w.reported && w.x.unread != []
    && w' == Echoed(w, if |w.x.unread| <= bufSize then |w.x.unread| else bufSize)
  }

  /** From run[a] to run[b] nothing arrives and every read is full. */
  ghost predicate ReadsFully(mode: Mode, bufSize: nat, run: seq<Watch>, a: nat, b: nat) {
    && a <= b < |run|
    && forall k :: a <= k < b ==> Report(mode, run[k], run[k + 1]) || FullRead(bufSize, run[k], run[k + 1])
  }

  /** What k full reads take of n bytes. */
  function Taken(bufSize: nat, n: nat, k: nat): nat { if bufSize * k <= n then bufSize * k else n }

  lemma TakenStep(bufSize: nat, n: nat, k: nat)
    requires k > 0
    ensures Taken(bufSize, n, k) == var t := Taken(bufSize, n, k - 1); if t + bufSize <= n then t + bufSize else n
  {
    MulStep(bufSize, k - 1);
  }

  /** r full reads have left all but the first r buffers full. */
  lemma {:induction false} FullReadsTake(mode: Mode, bufSize: nat, run: seq<Watch>, a: nat, b: nat)
    requires IsRun(mode, bufSize, run) && ReadsFully(mode, bufSize, run, a, b)
    ensures run[b].turns >= run[a].turns
    ensures var n, turns := |run[a].x.unread|, run[b].turns - run[a].turns;
            && run[b].x.unread == run[a].x.unread[Taken(bufSize, n, turns)..]
            && (turns > 0 ==> Taken(bufSize, n, turns - 1) < n)
    decreases b
  {
    if a == b {
      assert bufSize * 0 == 0;
    } else {
      FullReadsTake(mode, bufSize, run, a, b - 1);
      var turns := run[b - 1].turns - run[a].turns;
      TakenStep(bufSize, |run[a].x.unread|, turns + 1);
    }
  }

  /**
   In every level-triggered run, with no more arrivals full reads drain n waiting bytes in exactly
   n / bufSize reads, rounded up: after fewer the server goes on, and more there are never.
   */
  lemma FullReadsDrain(bufSize: nat, run: seq<Watch>, a: nat, b: nat)
    requires IsRun(LevelTriggered, bufSize, run) && ReadsFully(LevelTriggered, bufSize, run, a, b)
    ensures var turns, needed := run[b].turns - run[a].turns, (|run[a].x.unread| + bufSize - 1) / bufSize;
            turns <= needed && (Stalled(LevelTriggered, bufSize, run[b]) <==> turns == needed)
  {
    FullReadsTake(LevelTriggered, bufSize, run, a, b);
    LevelTriggeredDrains(bufSize, run, b);
    RunInv(LevelTriggered, bufSize, run, b);
    var n, turns := |run[a].x.unread|, run[b].turns - run[a].turns;
    CeilBound(n, bufSize, turns);
    if turns > 0 { CeilBound(n, bufSize, turns - 1); } else { assert bufSize * 0 == 0; }
  }

  // ----- When the edge-triggered server drains

  /** Every read up to run[k] takes at least the given number of bytes, or all there are. */
  ghost predicate ReadsTake(bufSize: nat, least: nat, run: seq<Watch>, k: nat) {
    && k < |run|
    && forall i :: 0 <= i < k && Read(bufSize, run[i], run[i + 1]) ==>
         run[i + 1].x.unread == [] || |run[i + 1].x.unread| + least <= |run[i].x.unread|
  }

  /** Bytes that a single read takes do not wait without a report to come. */
  lemma {:induction false} FewBytesAreReported(bufSize: nat, least: nat, run: seq<Watch>, k: nat)
    requires IsRun(EdgeTriggered, bufSize, run) && ReadsTake(bufSize, least, run, k) && |run[k].x.arrived| <= least
    ensures var w := run[k]; w.x.unread == [] || w.armed || w.reported
  {
    if k == 0 {
    } else {
      var w := run[k - 1];
      RunInv(EdgeTriggered, bufSize, run, k - 1);
      assert Next(EdgeTriggered, bufSize, w, run[k]);
      if Read(bufSize, w, run[k]) {
        assert |w.x.unread| <= |w.x.arrived| == |run[k].x.arrived|;
      } else {
        FewBytesAreReported(bufSize, least, run, k - 1);
      }
    }
  }

  /** The step of a server that has a report or a read to come. */
  lemma NextMove(bufSize: nat, w: Watch) returns (w': Watch)
    requires Inv(EdgeTriggered, bufSize, w) && bufSize > 0 && (w.reported || (w.x.unread != [] && w.armed))
    ensures ServerStep(EdgeTriggered, bufSize, w, w')
  {
    if w.reported {
      w' := Echoed(w, 1);
      assert Read(bufSize, w, w');
    } else {
      w' := w.(reported := true, armed := false);
    }
  }

  lemma StalledMeans(bufSize: nat, w: Watch)
    requires Inv(EdgeTriggered, bufSize, w) && bufSize > 0 && Stalled(EdgeTriggered, bufSize, w)
    ensures !w.reported && (w.x.unread == [] || !w.armed)
  {
    if w.reported || (w.x.unread != [] && w.armed) {
      var w' := NextMove(bufSize, w);
    }
  }

  /** All arrivals come before the first report. */
  lemma {:induction false} ArriveAll(bufSize: nat, bursts: seq<seq<byte>>) returns (run: seq<Watch>)
    requires bufSize > 0 && forall i :: 0 <= i < |bursts| ==> bursts[i] != []
    ensures IsRun(EdgeTriggered, bufSize, run) && |run| == |bursts| + 1
    ensures forall i :: 0 <= i < |run| ==> !run[i].reported
    ensures run[|bursts|] ==
            Watch(Conn(0, Concat(bursts), [], Concat(bursts), false), bursts != [], false, |bursts|, 0)
    decreases |bursts|
  {
    if bursts == [] {
      run := [Watch(Conn(0, [], [], [], false), false, false, 0, 0)];
    } else {
      var init, last := bursts[..|bursts| - 1], bursts[|bursts| - 1];
      var before := ArriveAll(bufSize, init);
      var all := Concat(bursts);
      run := before + [Watch(Conn(0, all, [], all, false), true, false, |bursts|, 0)];
      assert Arrive(before[|init|], run[|bursts|], last);
      assert forall k :: 0 <= k < |init| ==> Next(EdgeTriggered, bufSize, before[k], before[k + 1]);
    }
  }

  /** One report of all that arrived and one read of at most the given number of bytes: the server stalls. */
  lemma Coalesce(bufSize: nat, least: nat, bursts: seq<seq<byte>>) returns (run: seq<Watch>, k: nat)
    requires 0 < least <= bufSize && bursts != [] && forall i :: 0 <= i < |bursts| ==> bursts[i] != []
    ensures RestsAfter(bufSize, least, bursts, run, k) && |run[k].x.echoed| <= least
  {
    var arrivals := ArriveAll(bufSize, bursts);
    var w := arrivals[|bursts|];
    assert Concat(bursts) == Concat(bursts[..|bursts| - 1]) + bursts[|bursts| - 1];
    var w1 := w.(reported := true, armed := false);
    var w2 := Echoed(w1, if |w.x.unread| <= least then |w.x.unread| else least);
    assert Report(EdgeTriggered, w, w1) && Read(bufSize, w1, w2);
    run, k := arrivals + [w1, w2], |bursts| + 2;
    assert forall i :: 0 <= i < |bursts| ==> Next(EdgeTriggered, bufSize, arrivals[i], arrivals[i + 1]);
  }

  /** The run of an edge-triggered server has come to rest after the given arrivals. */
  ghost predicate RestsAfter(bufSize: nat, least: nat, bursts: seq<seq<byte>>, run: seq<Watch>, k: nat) {
    && IsRun(EdgeTriggered, bufSize, run) && ReadsTake(bufSize, least, run, k)
    && Stalled(EdgeTriggered, bufSize, run[k])
    && run[k].edges == |bursts| && run[k].x.arrived == Concat(bursts)
  }

  /**
   Whatever a client's writes are and however they meet the server's reports, a stalled edge-triggered server
   has echoed everything, if and only if the writes together are no more than what every read is known to take.
   If they are more, they can all arrive before the first report, and a single read answers them. With full
   reads the bound is the buffer; if reads may be as short as they like, it is a single byte.
   */
  lemma EdgeTriggeredDrains(bufSize: nat, least: nat, bursts: seq<seq<byte>>)
    requires 0 < least <= bufSize && forall i :: 0 <= i < |bursts| ==> bursts[i] != []
    ensures (forall run: seq<Watch>, k: nat :: RestsAfter(bufSize, least, bursts, run, k) ==> run[k].x.unread == [])
            <==> |Concat(bursts)| <= least
  {
    if |Concat(bursts)| <= least {
      forall run: seq<Watch>, k: nat | RestsAfter(bufSize, least, bursts, run, k)
        ensures run[k].x.unread == []
      {
        RunInv(EdgeTriggered, bufSize, run, k);
        FewBytesAreReported(bufSize, least, run, k);
        StalledMeans(bufSize, run[k]);
      }
    } else {
      var run, k := Coalesce(bufSize, least, bursts);
      RunInv(EdgeTriggered, bufSize, run, k);
      assert |run[k].x.echoed| < |run[k].x.arrived|;
    }
  }

  /** Reading at least one byte is no restriction, and reading at least bufSize bytes means full reads. */
  lemma ReadBounds(bufSize: nat, run: seq<Watch>, k: nat)
    requires k < |run|
    ensures ReadsTake(bufSize, 1, run, k)
    ensures ReadsTake(bufSize, bufSize, run, k) <==>
              forall i :: 0 <= i < k && Read(bufSize, run[i], run[i + 1]) ==> FullRead(bufSize, run[i], run[i + 1])
  {
    if ReadsTake(bufSize, bufSize, run, k) {
      forall i | 0 <= i < k && Read(bufSize, run[i], run[i + 1])
        ensures FullRead(bufSize, run[i], run[i + 1])
      {
        var n: nat :| 1 <= n <= |run[i].x.unread| && n <= bufSize && run[i + 1] == Echoed(run[i], n);
      }
    }
  }

  // ----- One burst

  /** What a client has seen that wrote at most once, to a server that reads fully. */
  ghost predicate BurstInv(bufSize: nat, w: Watch) {
    && (w.edges == 0 ==> w.turns == 0 && w.x.arrived == [] && !w.reported)
    && (w.edges == 1 && w.turns == 0 ==> (w.armed || w.reported) && w.x.unread != [] && w.x.echoed == [])
    && (w.edges == 1 && w.turns > 0 ==>
          && !w.armed && !w.reported
          && |w.x.echoed| == if |w.x.arrived| <= bufSize then |w.x.arrived| else bufSize)
  }

  lemma {:induction false} BurstRunInv(bufSize: nat, run: seq<Watch>, k: nat)
    requires IsRun(EdgeTriggered, bufSize, run) && ReadsTake(bufSize, bufSize, run, k)
    ensures BurstInv(bufSize, run[k])
  {
    RunInv(EdgeTriggered, bufSize, run, k);
    if k == 0 {
    } else {
      BurstRunInv(bufSize, run, k - 1);
      RunInv(EdgeTriggered, bufSize, run, k - 1);
      assert Next(EdgeTriggered, bufSize, run[k - 1], run[k]);
    }
  }

  /**
   In every run of the edge-triggered server with one arrival and full reads, when the server stalls it has
   echoed the first buffer full, so everything if and only if the arrival fits the buffer.
   */
  lemma OneBurst(bufSize: nat, run: seq<Watch>, k: nat)
    requires IsRun(EdgeTriggered, bufSize, run) && ReadsTake(bufSize, bufSize, run, k) && run[k].edges == 1
    requires Stalled(EdgeTriggered, bufSize, run[k])
    ensures |run[k].x.echoed| == if |run[k].x.arrived| <= bufSize then |run[k].x.arrived| else bufSize
    ensures run[k].x.unread == [] <==> |run[k].x.arrived| <= bufSize
  {
    BurstRunInv(bufSize, run, k);
    EchoConserves(EdgeTriggered, bufSize, run, k);
    RunInv(EdgeTriggered, bufSize, run, k);
    StalledMeans(bufSize, run[k]);
  }

  /** Such a run exists for every burst. */
  lemma OneBurstRun(bufSize: nat, bytes: seq<byte>) returns (run: seq<Watch>)
    requires bufSize > 0 && bytes != []
    ensures IsRun(EdgeTriggered, bufSize, run) && |run| == 4 && ReadsTake(bufSize, bufSize, run, 3)
    ensures Stalled(EdgeTriggered, bufSize, run[3]) && run[3].edges == 1 && run[3].x.arrived == bytes
  {
    var w0 := Watch(Conn(0, [], [], [], false), false, false, 0, 0);
    var w1 := Watch(Conn(0, bytes, [], bytes, false), true, false, 1, 0);
    var w2 := w1.(reported := true, armed := false);
    var n := if |bytes| <= bufSize then |bytes| else bufSize;
    var w3 := Echoed(w2, n);
    assert [] + bytes == bytes;
    assert Arrive(w0, w1, bytes);
    assert Report(EdgeTriggered, w1, w2) && Read(bufSize, w2, w3);
    run := [w0, w1, w2, w3];
  }
}
