/** What holds in every run of the chat server. */
module ChatTheorems {
  import opened ClientList
  import opened ChatProtocol
  import opened Sequences

  /** The log is one for the whole run: it only grows, and so does the record of who sent what. */
  lemma {:induction false} LogGrows(run: seq<Sys>, j: nat, k: nat)
    requires IsRun(run) && j <= k < |run|
    ensures run[j].log <= run[k].log && run[j].senders <= run[k].senders && |run[j].conns| <= |run[k].conns|
    decreases k
  {
    if j == k {
    } else {
      LogGrows(run, j, k - 1);
      assert StepAt(run, k - 1);
      StepGrows(run[k - 1], run[k]);
    }
  }

  lemma StepGrows(s: Sys, s': Sys)
    requires Next(s, s')
    ensures s.log <= s'.log && s.senders <= s'.senders && |s.conns| <= |s'.conns|
  {
  }

  /** From where to where in the log a connection was or has been listed. */
  ghost function Interval(s: Sys, c: nat): (nat, nat)
    requires c < |s.conns|
  {
    var x := s.conns[c];
    if x.phase.Fresh? then (0, 0) else (x.from, if x.phase.Active() then |s.log| else x.to)
  }

  /**
   Total order: whenever no broadcast is under way, what each connection has been sent is exactly the
   contiguous part of the one log between its registration and its removal, or now.
   */
  lemma TotalOrder(run: seq<Sys>, k: nat, c: nat)
    requires IsRun(run) && k < |run| && run[k].holder.None? && c < |run[k].conns|
    ensures var s := run[k]; var (from, to) := Interval(s, c);
            from <= to <= |s.log| && s.conns[c].sent == s.log[from..to]
  {
    RunInv(run, k);
    assert ConnSent(run[k], run[k].conns[c]);
  }

  lemma ViewOf(run: seq<Sys>, k: nat, c: nat, p: nat, q: nat)
    requires IsRun(run) && k < |run| && run[k].holder.None? && c < |run[k].conns|
    requires Interval(run[k], c).0 <= p <= q <= Interval(run[k], c).1
    ensures var s := run[k]; var from := Interval(s, c).0;
            q <= |s.log| && q - from <= |s.conns[c].sent| && s.conns[c].sent[p - from..q - from] == s.log[p..q]
  {
    TotalOrder(run, k, c);
    var s := run[k];
    var (from, to) := Interval(s, c);
    SliceOfSlice(s.log, from, to, p, q);
  }

  /** So two connections see every part of their common interval alike, in the same order. */
  lemma CommonView(run: seq<Sys>, k: nat, c: nat, d: nat, p: nat, q: nat)
    requires IsRun(run) && k < |run| && run[k].holder.None? && c < |run[k].conns| && d < |run[k].conns|
    requires Interval(run[k], c).0 <= p <= q <= Interval(run[k], c).1
    requires Interval(run[k], d).0 <= p <= q <= Interval(run[k], d).1
    ensures var s := run[k]; var fc, fd := Interval(s, c).0, Interval(s, d).0;
            && q - fc <= |s.conns[c].sent| && q - fd <= |s.conns[d].sent|
            && s.conns[c].sent[p - fc..q - fc] == s.conns[d].sent[p - fd..q - fd]
  {
    ViewOf(run, k, c, p, q);
    ViewOf(run, k, d, p, q);
  }

  /** In a broadcast that is about to write to client i exactly the first i clients have the last entry. */
  lemma MidBroadcast(run: seq<Sys>, k: nat, j: nat)
    requires IsRun(run) && k < |run| && run[k].holder.Some? && j < |run[k].clients|
    ensures var s := run[k]; var fd := s.clients[j];
            && fd in s.owner && s.owner[fd] < |s.conns|
            && var x := s.conns[s.owner[fd]];
               var end := if j < s.holder.value.i then |s.log| else |s.log| - 1;
               x.from <= end && x.sent == s.log[x.from..end]
  {
    RunInv(run, k);
    var s := run[k];
    var fd := s.clients[j];
    assert fd in s.clients;
    assert ConnSent(s, s.conns[s.owner[fd]]);
    var i := s.holder.value.i;
    if j < i { assert s.clients[..i][j] == fd; }
  }

  /** The log restricted to one sender is what its handler has read, but for a chunk that waits for the mutex. */
  lemma PerSenderFifo(run: seq<Sys>, k: nat, c: nat)
    requires IsRun(run) && k < |run| && c < |run[k].conns|
    ensures var s := run[k];
            && |s.log| == |s.senders|
            && s.conns[c].read == Own(s.log, s.senders, c, |s.log|)
                                  + if s.conns[c].phase.Ready? then [s.conns[c].phase.chunk] else []
  {
    RunInv(run, k);
  }

  /**
   The list never repeats a socket and every socket in it is open. A handler that is about to remove itself
   finds its socket, so the count drops by an entry that was there, and one that is about to close is unlisted.
   */
  lemma ListIsSound(run: seq<Sys>, k: nat)
    requires IsRun(run) && k < |run|
    ensures var s := run[k];
            && Distinct(s.clients)
            && (forall fd :: fd in s.clients ==> fd in s.owner)
            && (forall c :: 0 <= c < |s.conns| && s.conns[c].phase.Leaving? ==> s.conns[c].fd in s.clients)
            && (forall c :: 0 <= c < |s.conns| && s.conns[c].phase.Closing? ==> s.conns[c].fd !in s.clients)
  {
    RunInv(run, k);
  }

  /** Removing a leaving handler's socket takes exactly it out of the list and keeps the order of the others. */
  lemma RemovalIsExact(run: seq<Sys>, k: nat, s': Sys, c: nat) returns (i: nat)
    requires IsRun(run) && k < |run| && Remove(run[k], s', c)
    ensures i < |run[k].clients| && run[k].clients[i] == run[k].conns[c].fd
    ensures s'.clients == run[k].clients[..i] + run[k].clients[i + 1..]
    ensures run[k].conns[c].fd !in s'.clients
  {
    RunInv(run, k);
    var s := run[k];
    i :| 0 <= i < |s.clients| && s.clients[i] == s.conns[c].fd;
    RemovedListed(s.clients, i);
    RemovedIsExact(s.clients, s.conns[c].fd);
  }

  /** The mutex is never held for good: the holder can always write to the next client or let go. */
  lemma BroadcastProceeds(run: seq<Sys>, k: nat)
    requires IsRun(run) && k < |run| && run[k].holder.Some?
    ensures exists s' :: WriteOne(run[k], s') || Unlock(run[k], s', run[k].holder.value.c)
  {
    RunInv(run, k);
    var s := run[k];
    var c := s.holder.value.c;
    if s.holder.value.i >= |s.clients| {
      assert Unlock(s, SetConn(s, c, s.conns[c].(phase := Reading)).(holder := None), c);
    } else {
      var next := s.(holder := Some(Broadcast(c, s.holder.value.chunk, s.holder.value.i + 1)));
      var fd := s.clients[s.holder.value.i];
      assert fd in s.clients;
      var d := s.owner[fd];
      assert WriteOne(s, SetConn(next, d, s.conns[d].(sent := s.conns[d].sent + [s.holder.value.chunk])));
    }
  }
}
