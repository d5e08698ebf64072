/**
 The event loops once the clients have stopped sending: how many rounds it takes until every connection was
 echoed everything and every ended one is closed. Assumptions: as in EventLoop.dfy; every ready fd is reported.
 */
module EventDrain {
  import opened EventLoop
  import opened Sequences

  /** Nothing arrives, on the connections there are or on one that is accepted in the round. */
  ghost predicate NoArrivals(k: Kernel, k': Kernel) {
    && |k.conns| <= |k'.conns|
    && (forall c :: 0 <= c < |k.conns| ==>
          k'.conns[c].arrived == k.conns[c].arrived && k'.conns[c].ended == k.conns[c].ended)
    && forall c :: |k.conns| <= c < |k'.conns| ==> k'.conns[c].arrived == [] && !k'.conns[c].ended
  }

  /** The reported fds are ready, and all client fds that are ready are among them. */
  ghost predicate Thorough(k: Kernel, order: seq<nat>)
    requires k.Valid()
  {
    && (forall fd :: fd in order ==> k.Reportable(fd))
    && forall fd :: fd in k.owner && k.Reportable(fd) ==> fd in order
  }

  ghost predicate DrainRound(bufSize: nat, k: Kernel, k': Kernel) {
    && k.Valid() && NoArrivals(k, k')
    && exists order, served :: Thorough(k, order) && RoundDone(k, k', order, served, bufSize)
  }

  /** Whatever was read in the round was read as far as the buffer goes. */
  ghost predicate FullReads(bufSize: nat, k: Kernel, k': Kernel) {
    && |k.conns| <= |k'.conns|
    && forall c :: 0 <= c < |k.conns| && k'.conns[c].echoed != k.conns[c].echoed ==>
         |k'.conns[c].echoed| >= |k.conns[c].echoed| + bufSize || k'.conns[c].unread == []
  }

  ghost predicate DrainAt(bufSize: nat, full: bool, ks: seq<Kernel>, i: nat)
    requires i + 1 < |ks|
  {
    DrainRound(bufSize, ks[i], ks[i + 1]) && (full ==> FullReads(bufSize, ks[i], ks[i + 1]))
  }

  /** Rounds without arrivals, from a point in the life of the server; full tells whether its reads are full. */
  ghost predicate IsDrain(bufSize: nat, full: bool, ks: seq<Kernel>) {
    && |ks| > 0 && ks[0].Valid() && Answered(ks[0])
    && forall i :: 0 <= i < |ks| - 1 ==> DrainAt(bufSize, full, ks, i)
  }

  // ----- One round

  /** A connection is served exactly if it is open and a read of it would not block. */
  lemma ServedIfReady(bufSize: nat, k: Kernel, k': Kernel, order: seq<nat>, served: seq<nat>, c: nat)
    requires k.Valid() && Thorough(k, order) && RoundDone(k, k', order, served, bufSize) && c < |k.conns|
    ensures c in served <==> OpenAs(k, k.conns[c].fd, c) && k.conns[c].Readable()
  {
    ConnsOfMembers(order, k.listener, k.owner);
    if c in served {
      var fd :| fd in order && fd != k.listener && fd in k.owner && k.owner[fd] == c;
      assert k.Reportable(fd);
    }
    if OpenAs(k, k.conns[c].fd, c) && k.conns[c].Readable() {
      assert k.Reportable(k.conns[c].fd);
    }
  }

  /** One round takes a byte to a buffer of every connection on which bytes wait. */
  lemma RoundTakes(bufSize: nat, k: Kernel, k': Kernel, c: nat)
    requires DrainRound(bufSize, k, k') && Answered(k) && c < |k.conns|
    ensures k'.Valid() && |k'.conns[c].unread| + bufSize >= |k.conns[c].unread|
    ensures |k'.conns[c].unread| < |k.conns[c].unread| || k'.conns[c].unread == k.conns[c].unread == []
    ensures FullReads(bufSize, k, k') ==>
              |k'.conns[c].unread| == if |k.conns[c].unread| <= bufSize then 0 else |k.conns[c].unread| - bufSize
  {
    var order, served :| Thorough(k, order) && RoundDone(k, k', order, served, bufSize);
    ServedIfReady(bufSize, k, k', order, served, c);
    var x, x' := k.conns[c], k'.conns[c];
    assert x.Conserved() && x'.Conserved() && EchoedIn(x, x', c in served, bufSize);
    if x.unread != [] { assert |x.echoed| < |x.arrived|; }
  }

  lemma RoundKeepsAnswered(bufSize: nat, k: Kernel, k': Kernel)
    requires DrainRound(bufSize, k, k') && Answered(k)
    ensures k'.Valid() && Answered(k')
  {
    var order, served :| Thorough(k, order) && RoundDone(k, k', order, served, bufSize);
    RoundAnswers(k, k', order, served, bufSize);
  }

  // ----- Any number of rounds

  lemma {:induction false} DrainValid(bufSize: nat, full: bool, ks: seq<Kernel>, i: nat)
    requires IsDrain(bufSize, full, ks) && i < |ks|
    ensures ks[i].Valid() && Answered(ks[i]) && |ks[0].conns| <= |ks[i].conns|
  {
    if i == 0 {
    } else {
      DrainValid(bufSize, full, ks, i - 1);
      assert DrainAt(bufSize, full, ks, i - 1);
      RoundKeepsAnswered(bufSize, ks[i - 1], ks[i]);
    }
  }

  /** left bytes wait, of first in the beginning, after i rounds. */
  ghost predicate Waits(bufSize: nat, full: bool, first: nat, left: nat, i: nat) {
    && (left == 0 || left + i <= first)
    && (full ==> left == if bufSize * i <= first then first - bufSize * i else 0)
  }

  lemma WaitsOneMore(bufSize: nat, full: bool, first: nat, left: nat, left': nat, i: nat)
    requires Waits(bufSize, full, first, left, i) && (left' < left || left' == left == 0)
    requires full ==> left' == if left <= bufSize then 0 else left - bufSize
    ensures Waits(bufSize, full, first, left', i + 1)
  {
    MulStep(bufSize, i);
  }

  lemma NewcomerWaits(bufSize: nat, full: bool, k: Kernel, k': Kernel, c: nat, i: nat)
    requires DrainRound(bufSize, k, k') && Answered(k) && |k.conns| <= c < |k'.conns|
    ensures Waits(bufSize, full, 0, |k'.conns[c].unread|, i)
  {
    RoundKeepsAnswered(bufSize, k, k');
    assert k'.conns[c].Conserved();
    MulMono(bufSize, 0, i);
  }

  function First(k: Kernel, c: nat): nat { if c < |k.conns| then |k.conns[c].unread| else 0 }

  /** What waits on connection c after i rounds. */
  ghost predicate WaitsAt(bufSize: nat, full: bool, ks: seq<Kernel>, i: nat, c: nat)
    requires i < |ks| && c < |ks[i].conns|
  {
    Waits(bufSize, full, First(ks[0], c), |ks[i].conns[c].unread|, i)
  }

  lemma WaitsStep(bufSize: nat, full: bool, ks: seq<Kernel>, i: nat, c: nat)
    requires i + 1 < |ks| && DrainAt(bufSize, full, ks, i) && Answered(ks[i]) && c < |ks[i + 1].conns|
    requires c < |ks[i].conns| ==> WaitsAt(bufSize, full, ks, i, c)
    requires |ks[0].conns| <= |ks[i].conns|
    ensures WaitsAt(bufSize, full, ks, i + 1, c)
  {
    if c < |ks[i].conns| {
      RoundTakes(bufSize, ks[i], ks[i + 1], c);
      WaitsOneMore(bufSize, full, First(ks[0], c), |ks[i].conns[c].unread|, |ks[i + 1].conns[c].unread|, i);
    } else {
      NewcomerWaits(bufSize, full, ks[i], ks[i + 1], c, i + 1);
    }
  }

  lemma DrainStep(bufSize: nat, full: bool, ks: seq<Kernel>, i: nat)
    requires IsDrain(bufSize, full, ks) && i + 1 < |ks|
    ensures DrainAt(bufSize, full, ks, i) && Answered(ks[i]) && |ks[0].conns| <= |ks[i].conns|
  {
    DrainValid(bufSize, full, ks, i);
  }

  /** Nothing arrived on a connection that was accepted on the way, so nothing waits on it. */
  lemma {:induction false} WaitsAfter(bufSize: nat, full: bool, ks: seq<Kernel>, i: nat, c: nat)
    requires IsDrain(bufSize, full, ks) && i < |ks| && c < |ks[i].conns|
    ensures WaitsAt(bufSize, full, ks, i, c)
  {
    if i == 0 {
      assert bufSize * 0 == 0;
    } else {
      var j := i - 1;
      DrainStep(bufSize, full, ks, j);
      if c < |ks[j].conns| {
        WaitsAfter(bufSize, full, ks, j, c);
      }
      WaitsStep(bufSize, full, ks, j, c);
    }
  }

  /** The most bytes that wait on any of the first n connections. */
  ghost function MostUnread(conns: seq<Conn>, n: nat): nat
    requires n <= |conns|
  {
    if n == 0 then 0
    else
      var most := MostUnread(conns, n - 1);
      if |conns[n - 1].unread| > most then |conns[n - 1].unread| else most
  }

  lemma {:induction false} MostUnreadBounds(conns: seq<Conn>, n: nat, bound: nat)
    requires n <= |conns|
    ensures MostUnread(conns, n) <= bound <==> forall c :: 0 <= c < n ==> |conns[c].unread| <= bound
  {
    if n == 0 {
    } else {
      MostUnreadBounds(conns, n - 1, bound);
    }
  }

  /** Every client was echoed all that it sent. */
  ghost predicate AllEchoed(k: Kernel) { forall c :: 0 <= c < |k.conns| ==> k.conns[c].echoed == k.conns[c].arrived }

  lemma EchoedIfNothingWaits(k: Kernel)
    requires k.Valid()
    ensures AllEchoed(k) <==> forall c :: 0 <= c < |k.conns| ==> k.conns[c].unread == []
  {
    forall c | 0 <= c < |k.conns|
      ensures k.conns[c].echoed == k.conns[c].arrived <==> k.conns[c].unread == []
    {
      assert k.conns[c].Conserved();
      if k.conns[c].unread != [] { assert |k.conns[c].echoed| < |k.conns[c].arrived|; }
    }
  }

  /** However short the reads, everything is echoed after as many rounds as bytes wait on one connection. */
  lemma RoundsDrain(bufSize: nat, full: bool, ks: seq<Kernel>, i: nat)
    requires IsDrain(bufSize, full, ks) && i < |ks| && i >= MostUnread(ks[0].conns, |ks[0].conns|)
    ensures AllEchoed(ks[i])
  {
    DrainValid(bufSize, full, ks, i);
    EchoedIfNothingWaits(ks[i]);
    MostUnreadBounds(ks[0].conns, |ks[0].conns|, i);
    forall c | 0 <= c < |ks[i].conns|
      ensures ks[i].conns[c].unread == []
    {
      WaitsAfter(bufSize, full, ks, i, c);
    }
  }

  /**
   With full reads everything is echoed, on all connections, exactly from the round on whose number is the most
   bytes that wait on one of them, divided by the buffer size and rounded up.
   */
  lemma FullRoundsDrain(bufSize: nat, ks: seq<Kernel>, i: nat)
    requires bufSize > 0 && IsDrain(bufSize, true, ks) && i < |ks|
    ensures AllEchoed(ks[i]) <==> i >= (MostUnread(ks[0].conns, |ks[0].conns|) + bufSize - 1) / bufSize
  {
    DrainValid(bufSize, true, ks, i);
    EchoedIfNothingWaits(ks[i]);
    MostUnreadBounds(ks[0].conns, |ks[0].conns|, bufSize * i);
    CeilBound(MostUnread(ks[0].conns, |ks[0].conns|), bufSize, i);
    forall c | 0 <= c < |ks[i].conns|
      ensures ks[i].conns[c].unread == [] <==> (c < |ks[0].conns| ==> |ks[0].conns[c].unread| <= bufSize * i)
    {
      WaitsAfter(bufSize, true, ks, i, c);
    }
  }

  /** And one round later exactly the connections are open whose streams have not ended. */
  lemma ThenTheEndedAreClosed(bufSize: nat, k: Kernel, k': Kernel, c: nat)
    requires DrainRound(bufSize, k, k') && Answered(k) && AllEchoed(k) && c < |k.conns|
    ensures OpenAs(k', k.conns[c].fd, c) <==> !k.conns[c].ended
  {
    var order, served :| Thorough(k, order) && RoundDone(k, k', order, served, bufSize);
    EchoedIfNothingWaits(k);
    ServedIfReady(bufSize, k, k', order, served, c);
    var fd := k.conns[c].fd;
    if OpenAs(k', fd, c) { assert OpenAs(k, fd, c); }
  }
}
