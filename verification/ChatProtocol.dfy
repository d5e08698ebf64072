/**
 chat_server.c as interleaved steps of its accepting thread and one handler thread for each connection.
 What a thread does while it holds the mutex is one step, except a broadcast, which takes one step for each
 write. A connection is numbered when it is accepted; fd numbers are reused after close.
 Assumptions: accept returns an fd that is not open, writes are whole, read does not fail, a new handler
 copies its socket before the next accept, and the client array does not overflow.
 */
module ChatProtocol {
  import opened ByteTypes
  import opened ClientList
  import opened Sequences

  datatype Phase =
    | Fresh                            // accepted, not yet listed
    | Listed                           // listed, its handler not yet started
    | Reading                          // the handler is at its read
    | Ready(chunk: Chunk)              // it read a chunk and waits for the mutex
    | Sending                          // it holds the mutex and writes to the clients
    | Leaving                          // it read the end of the stream and waits for the mutex
    | Closing                          // removed from the list, about to close
    | Gone
  {
    predicate Active() { Listed? || Reading? || Ready? || Sending? || Leaving? }

    function Waiting(): seq<Chunk> { if Ready? then [chunk] else [] }
  }

  /**
   sent is what was written to the connection and read the chunks its handler has read; from and to are
   the lengths of the log when it was listed and when it was removed.
   */
  datatype Conn = Conn(fd: int, phase: Phase, sent: seq<Chunk>, read: seq<Chunk>, from: nat, to: nat)

  datatype Option<T> = None | Some(value: T)

  /** A broadcast under way: handler c holds the mutex and is about to write chunk to client i. */
  datatype Broadcast = Broadcast(c: nat, chunk: Chunk, i: nat)

  datatype MainPc = Accepting | Registering(c: nat) | Spawning(c: nat)

  /**
   owner maps each open fd to its connection; the mutex is held between steps only by the holder.
   The log lists the chunks in the order in which their senders took the mutex, with their senders beside.
   */
  datatype Sys = Sys(clients: seq<int>, owner: map<int, nat>, conns: seq<Conn>, main: MainPc,
                     holder: Option<Broadcast>, log: seq<Chunk>, senders: seq<nat>)

  ghost predicate Init(s: Sys) {
    s == Sys([], map[], [], Accepting, None, [], [])
  }

  // ----- The steps

  ghost function SetConn(s: Sys, c: nat, x: Conn): Sys
    requires c < |s.conns|
  {
    s.(conns := s.conns[c := x])
  }

  ghost predicate Accept(s: Sys, s': Sys, fd: int) {
    && s.main.Accepting? && fd !in s.owner
    && s' == s.(conns := s.conns + [Conn(fd, Fresh, [], [], 0, 0)], owner := s.owner[fd := |s.conns|],
                main := Registering(|s.conns|))
  }

  ghost predicate Register(s: Sys, s': Sys, c: nat) {
    && s.main == Registering(c) && s.holder.None? && c < |s.conns|
    && s' == SetConn(s, c, s.conns[c].(phase := Listed, from := |s.log|))
             .(clients := s.clients + [s.conns[c].fd], main := Spawning(c))
  }

  ghost predicate Spawn(s: Sys, s': Sys, c: nat) {
    && s.main == Spawning(c) && c < |s.conns|
    && s' == SetConn(s, c, s.conns[c].(phase := Reading)).(main := Accepting)
  }

  ghost predicate Read(s: Sys, s': Sys, c: nat, chunk: Chunk) {
    && c < |s.conns| && s.conns[c].phase.Reading? && chunk != []
    && s' == SetConn(s, c, s.conns[c].(phase := Ready(chunk), read := s.conns[c].read + [chunk]))
  }

  ghost predicate ReadEnd(s: Sys, s': Sys, c: nat) {
    && c < |s.conns| && s.conns[c].phase.Reading?
    && s' == SetConn(s, c, s.conns[c].(phase := Leaving))
  }

  ghost predicate Lock(s: Sys, s': Sys, c: nat) {
    && c < |s.conns| && s.conns[c].phase.Ready? && s.holder.None?
    && var chunk := s.conns[c].phase.chunk;
       s' == SetConn(s, c, s.conns[c].(phase := Sending))
             .(holder := Some(Broadcast(c, chunk, 0)), log := s.log + [chunk], senders := s.senders + [c])
  }

  /** A write to the i-th client reaches the connection that owns its fd; to an fd that is not open it is lost. */
  ghost predicate WriteOne(s: Sys, s': Sys) {
    && s.holder.Some? && s.holder.value.i < |s.clients|
    && var Broadcast(c, chunk, i) := s.holder.value;
       var next := s.(holder := Some(Broadcast(c, chunk, i + 1)));
       var fd := s.clients[i];
       s' == if fd in s.owner && s.owner[fd] < |s.conns| then
               var d := s.owner[fd];
               SetConn(next, d, s.conns[d].(sent := s.conns[d].sent + [chunk]))
             else next
  }

  ghost predicate Unlock(s: Sys, s': Sys, c: nat) {
    && c < |s.conns| && s.conns[c].phase.Sending?
    && s.holder.Some? && s.holder.value.c == c && s.holder.value.i >= |s.clients|
    && s' == SetConn(s, c, s.conns[c].(phase := Reading)).(holder := None)
  }

  ghost predicate Remove(s: Sys, s': Sys, c: nat) {
    && c < |s.conns| && s.conns[c].phase.Leaving? && s.holder.None? && s.clients != []
    && s' == SetConn(s, c, s.conns[c].(phase := Closing, to := |s.log|))
             .(clients := Removed(s.clients, s.conns[c].fd))
  }

  ghost predicate Close(s: Sys, s': Sys, c: nat) {
    && c < |s.conns| && s.conns[c].phase.Closing?
    && s' == SetConn(s, c, s.conns[c].(phase := Gone)).(owner := s.owner - {s.conns[c].fd})
  }

  ghost predicate Next(s: Sys, s': Sys) {
    || (exists fd :: Accept(s, s', fd))
    || (exists c :: Register(s, s', c))
    || (exists c :: Spawn(s, s', c))
    || (exists c, chunk :: Read(s, s', c, chunk))
    || (exists c :: ReadEnd(s, s', c))
    || (exists c :: Lock(s, s', c))
    || WriteOne(s, s')
    || (exists c :: Unlock(s, s', c))
    || (exists c :: Remove(s, s', c))
    || (exists c :: Close(s, s', c))
  }

  ghost predicate StepAt(run: seq<Sys>, k: nat)
    requires k + 1 < |run|
  {
    Next(run[k], run[k + 1])
  }

  ghost predicate IsRun(run: seq<Sys>) {
    |run| > 0 && Init(run[0]) && forall k :: 0 <= k < |run| - 1 ==> StepAt(run, k)
  }

  // ----- The invariant

  /** Every open fd belongs to one connection that has not closed it, and conversely. */
  ghost predicate FdsOwned(s: Sys) {
    && (forall fd :: fd in s.owner ==> s.owner[fd] < |s.conns| && !s.conns[s.owner[fd]].phase.Gone?)
    && (forall c :: 0 <= c < |s.conns| && !s.conns[c].phase.Gone? ==>
          s.conns[c].fd in s.owner && s.owner[s.conns[c].fd] == c)
    && (forall fd :: fd in s.owner ==> s.conns[s.owner[fd]].fd == fd)
  }

  /** The list holds exactly the fds of the active connections, once each. */
  ghost predicate ListOk(s: Sys)
    requires FdsOwned(s)
  {
    && Distinct(s.clients)
    && (forall fd :: fd in s.clients ==> fd in s.owner && s.conns[s.owner[fd]].phase.Active())
    && (forall c :: 0 <= c < |s.conns| && s.conns[c].phase.Active() ==> s.conns[c].fd in s.clients)
  }

  /** The mutex is held exactly by the handler that is sending the last entry of the log. */
  ghost predicate LockOk(s: Sys) {
    && (s.holder.Some? ==>
          && s.holder.value.c < |s.conns| && s.conns[s.holder.value.c].phase.Sending?
          && s.holder.value.i <= |s.clients| && |s.log| > 0 && s.log[|s.log| - 1] == s.holder.value.chunk)
    && (forall c :: 0 <= c < |s.conns| && s.conns[c].phase.Sending? ==> s.holder.Some? && s.holder.value.c == c)
  }

  ghost predicate MainOk(s: Sys) {
    && (s.main.Registering? ==> s.main.c < |s.conns| && s.conns[s.main.c].phase.Fresh?)
    && (s.main.Spawning? ==> s.main.c < |s.conns| && s.conns[s.main.c].phase.Listed?)
    && (forall c :: 0 <= c < |s.conns| && s.conns[c].phase.Fresh? ==> s.main == Registering(c))
    && (forall c :: 0 <= c < |s.conns| && s.conns[c].phase.Listed? ==> s.main == Spawning(c))
  }

  /** How many entries of the log a listed fd has been sent, counting from the start of the log. */
  ghost function Reached(s: Sys, fd: int): int
    requires LockOk(s)
  {
    if s.holder.Some? && fd !in s.clients[..s.holder.value.i] then |s.log| - 1 else |s.log|
  }

  /** What was sent to x is the log from the connection's start to its end, or to now. */
  ghost predicate ConnSent(s: Sys, x: Conn)
    requires LockOk(s)
  {
    if x.phase.Fresh? then x.sent == []
    else
      var end := if x.phase.Active() then Reached(s, x.fd) else x.to;
      x.from <= end <= |s.log| && x.sent == s.log[x.from..end]
  }

  ghost predicate SentOk(s: Sys)
    requires LockOk(s)
  {
    forall c :: 0 <= c < |s.conns| ==> ConnSent(s, s.conns[c])
  }

  /** Each sender's entries are the chunks it read, but for one still waiting for the mutex. */
  ghost predicate FifoOk(s: Sys) {
    && |s.senders| == |s.log|
    && (forall k :: 0 <= k < |s.senders| ==> s.senders[k] < |s.conns|)
    && (forall c :: 0 <= c < |s.conns| ==>
          Own(s.log, s.senders, c, |s.log|) + s.conns[c].phase.Waiting() == s.conns[c].read)
  }

  ghost predicate Inv(s: Sys) {
    FdsOwned(s) && ListOk(s) && LockOk(s) && MainOk(s) && SentOk(s) && FifoOk(s)
  }

  // ----- Every step keeps it

  lemma AcceptFds(s: Sys, s': Sys, fd: int)
    requires FdsOwned(s) && Accept(s, s', fd)
    ensures FdsOwned(s')
  {
  }

  lemma AcceptKeeps(s: Sys, s': Sys, fd: int)
    requires FdsOwned(s) && LockOk(s) && MainOk(s) && Accept(s, s', fd)
    ensures FdsOwned(s') && LockOk(s') && MainOk(s')
  {
    AcceptFds(s, s', fd);
  }

  lemma AcceptList(s: Sys, s': Sys, fd: int)
    requires FdsOwned(s) && ListOk(s) && Accept(s, s', fd) && FdsOwned(s')
    ensures ListOk(s')
  {
  }

  lemma AcceptSent(s: Sys, s': Sys, fd: int)
    requires LockOk(s) && SentOk(s) && Accept(s, s', fd) && LockOk(s')
    ensures SentOk(s')
  {
  }

  lemma AcceptFifo(s: Sys, s': Sys, fd: int)
    requires FifoOk(s) && Accept(s, s', fd)
    ensures FifoOk(s')
  {
    OwnNone(s.log, s.senders, |s.conns|, |s.log|);
    assert forall c :: 0 <= c < |s.conns| ==> s'.conns[c] == s.conns[c];
  }

  lemma RegisterKeeps(s: Sys, s': Sys, c: nat)
    requires FdsOwned(s) && LockOk(s) && MainOk(s) && Register(s, s', c)
    ensures FdsOwned(s') && LockOk(s') && MainOk(s')
  {
  }

  lemma RegisterList(s: Sys, s': Sys, c: nat)
    requires FdsOwned(s) && ListOk(s) && MainOk(s) && Register(s, s', c) && FdsOwned(s')
    ensures ListOk(s')
  {
  }

  lemma RegisterSent(s: Sys, s': Sys, c: nat)
    requires FdsOwned(s) && LockOk(s) && MainOk(s) && SentOk(s) && FifoOk(s) && Register(s, s', c) && LockOk(s')
    ensures SentOk(s') && FifoOk(s')
  {
  }

  /** Connection c moves on without the mutex, and stays listed. */
  ghost predicate Moves(s: Sys, s': Sys, c: nat) {
    && c < |s.conns| && s.conns[c].phase.Active() && !s.conns[c].phase.Sending? && !s.conns[c].phase.Ready?
    && s' == s.(conns := s'.conns, main := s'.main) && |s'.conns| == |s.conns|
    && var x := s'.conns[c];
       s'.conns == s.conns[c := x] && x == s.conns[c].(phase := x.phase, read := s.conns[c].read + x.phase.Waiting())
       && x.phase.Active() && !x.phase.Sending?
  }

  lemma MovesKeeps(s: Sys, s': Sys, c: nat)
    requires FdsOwned(s) && LockOk(s) && Moves(s, s', c)
    ensures FdsOwned(s') && LockOk(s')
  {
  }

  lemma MovesList(s: Sys, s': Sys, c: nat)
    requires FdsOwned(s) && ListOk(s) && Moves(s, s', c) && FdsOwned(s')
    ensures ListOk(s')
  {
  }

  lemma MovesSent(s: Sys, s': Sys, c: nat)
    requires LockOk(s) && SentOk(s) && Moves(s, s', c) && LockOk(s')
    ensures SentOk(s')
  {
    forall e | 0 <= e < |s.conns|
      ensures ConnSent(s', s'.conns[e])
    {
      assert ConnSent(s, s.conns[e]);
    }
  }

  lemma MovesFifo(s: Sys, s': Sys, c: nat)
    requires FifoOk(s) && Moves(s, s', c)
    ensures FifoOk(s')
  {
  }

  lemma LockKeeps(s: Sys, s': Sys, c: nat)
    requires FdsOwned(s) && LockOk(s) && MainOk(s) && Lock(s, s', c)
    ensures FdsOwned(s') && LockOk(s') && MainOk(s')
  {
  }

  lemma LockList(s: Sys, s': Sys, c: nat)
    requires FdsOwned(s) && ListOk(s) && Lock(s, s', c) && FdsOwned(s')
    ensures ListOk(s')
  {
  }

  lemma LockSent(s: Sys, s': Sys, c: nat)
    requires LockOk(s) && SentOk(s) && FifoOk(s) && Lock(s, s', c) && LockOk(s')
    ensures SentOk(s')
  {
  }

  lemma LockFifo(s: Sys, s': Sys, c: nat)
    requires FifoOk(s) && Lock(s, s', c)
    ensures FifoOk(s')
  {
    forall d | 0 <= d < |s.conns|
      ensures Own(s'.log, s'.senders, d, |s'.log|) + s'.conns[d].phase.Waiting() == s'.conns[d].read
    {
      OwnExtended(s.log, s.senders, s.conns[c].phase.chunk, c, d);
      assert Own(s.log, s.senders, d, |s.log|) + s.conns[d].phase.Waiting() == s.conns[d].read;
    }
  }

  lemma OwnExtended(log: seq<Chunk>, senders: seq<nat>, chunk: Chunk, c: nat, d: nat)
    requires |log| == |senders|
    ensures Own(log + [chunk], senders + [c], d, |log| + 1) ==
            Own(log, senders, d, |log|) + if c == d then [chunk] else []
  {
    OwnPrefix(log, senders, log + [chunk], senders + [c], d, |log|);
  }

  lemma WriteOneFds(s: Sys, s': Sys)
    requires FdsOwned(s) && WriteOne(s, s')
    ensures FdsOwned(s')
  {
  }

  lemma WriteOneKeeps(s: Sys, s': Sys)
    requires FdsOwned(s) && LockOk(s) && MainOk(s) && WriteOne(s, s')
    ensures FdsOwned(s') && LockOk(s') && MainOk(s')
  {
    WriteOneFds(s, s');
  }

  lemma WriteOneList(s: Sys, s': Sys)
    requires FdsOwned(s) && ListOk(s) && WriteOne(s, s') && FdsOwned(s')
    ensures ListOk(s')
  {
  }

  lemma WriteOneSent(s: Sys, s': Sys)
    requires FdsOwned(s) && ListOk(s) && LockOk(s) && SentOk(s) && WriteOne(s, s') && LockOk(s')
    ensures SentOk(s')
  {
    var Broadcast(_, chunk, i) := s.holder.value;
    var fd := s.clients[i];
    assert fd in s.clients;
    var d := s.owner[fd];
    var prefix, longer := s.clients[..i], s.clients[..i + 1];
    assert longer == prefix + [fd] && fd !in prefix && fd in longer;
    forall e | 0 <= e < |s.conns|
      ensures ConnSent(s', s'.conns[e])
    {
      WriteOneConn(s, s', d, e);
    }
  }

  lemma WriteOneConn(s: Sys, s': Sys, d: nat, e: nat)
    requires LockOk(s) && LockOk(s') && FdsOwned(s) && e < |s.conns| && ConnSent(s, s.conns[e])
    requires s.holder.Some? && s'.holder.Some? && s.holder.value.i < |s.clients|
    requires s'.holder.value == s.holder.value.(i := s.holder.value.i + 1)
    requires s'.log == s.log && s'.clients == s.clients && d < |s.conns| && s.conns[d].phase.Active()
    requires s.conns[d].fd == s.clients[s.holder.value.i] && s.conns[d].fd !in s.clients[..s.holder.value.i]
    requires s'.conns == s.conns[d := s.conns[d].(sent := s.conns[d].sent + [s.holder.value.chunk])]
    ensures ConnSent(s', s'.conns[e])
  {
    var i := s.holder.value.i;
    assert s.clients[..i + 1] == s.clients[..i] + [s.clients[i]];
    if e == d {
      assert s.log[s.conns[d].from..] == s.log[s.conns[d].from..|s.log| - 1] + [s.holder.value.chunk];
    } else if s.conns[e].phase.Active() {
      assert s.conns[e].fd != s.clients[i];
    }
  }

  lemma WriteOneFifo(s: Sys, s': Sys)
    requires FifoOk(s) && WriteOne(s, s')
    ensures FifoOk(s')
  {
  }

  lemma UnlockKeeps(s: Sys, s': Sys, c: nat)
    requires FdsOwned(s) && LockOk(s) && MainOk(s) && FifoOk(s) && Unlock(s, s', c)
    ensures FdsOwned(s') && LockOk(s') && MainOk(s') && FifoOk(s')
  {
  }

  lemma UnlockList(s: Sys, s': Sys, c: nat)
    requires FdsOwned(s) && ListOk(s) && Unlock(s, s', c) && FdsOwned(s')
    ensures ListOk(s')
  {
  }

  lemma UnlockSent(s: Sys, s': Sys, c: nat)
    requires FdsOwned(s) && ListOk(s) && LockOk(s) && SentOk(s) && Unlock(s, s', c) && LockOk(s')
    ensures SentOk(s')
  {
  }

  lemma RemoveKeeps(s: Sys, s': Sys, c: nat)
    requires FdsOwned(s) && LockOk(s) && MainOk(s) && Remove(s, s', c)
    ensures FdsOwned(s') && LockOk(s') && MainOk(s')
  {
  }

  lemma RemoveList(s: Sys, s': Sys, c: nat)
    requires FdsOwned(s) && ListOk(s) && Remove(s, s', c) && FdsOwned(s')
    ensures ListOk(s')
  {
    RemovedIsExact(s.clients, s.conns[c].fd);
  }

  lemma RemoveSent(s: Sys, s': Sys, c: nat)
    requires FdsOwned(s) && ListOk(s) && LockOk(s) && SentOk(s) && FifoOk(s) && Remove(s, s', c) && LockOk(s')
    ensures SentOk(s') && FifoOk(s')
  {
  }

  lemma CloseFds(s: Sys, s': Sys, c: nat)
    requires FdsOwned(s) && Close(s, s', c)
    ensures FdsOwned(s')
  {
  }

  lemma CloseKeeps(s: Sys, s': Sys, c: nat)
    requires FdsOwned(s) && LockOk(s) && MainOk(s) && Close(s, s', c)
    ensures FdsOwned(s') && LockOk(s') && MainOk(s')
  {
    CloseFds(s, s', c);
  }

  lemma CloseList(s: Sys, s': Sys, c: nat)
    requires FdsOwned(s) && ListOk(s) && Close(s, s', c) && FdsOwned(s')
    ensures ListOk(s')
  {
  }

  lemma CloseSent(s: Sys, s': Sys, c: nat)
    requires FdsOwned(s) && ListOk(s) && LockOk(s) && SentOk(s) && Close(s, s', c) && LockOk(s')
    ensures SentOk(s')
  {
    forall e | 0 <= e < |s.conns|
      ensures ConnSent(s', s'.conns[e])
    {
      assert ConnSent(s, s.conns[e]);
    }
  }

  lemma CloseFifo(s: Sys, s': Sys, c: nat)
    requires FifoOk(s) && Close(s, s', c)
    ensures FifoOk(s')
  {
  }


  lemma SpawnKeeps(s: Sys, s': Sys, c: nat)
    requires Inv(s) && Spawn(s, s', c)
    ensures Inv(s')
  {
    MovesKeeps(s, s', c);
    MovesList(s, s', c);
    MovesSent(s, s', c);
    MovesFifo(s, s', c);
  }

  lemma ReadKeeps(s: Sys, s': Sys, c: nat, chunk: Chunk)
    requires Inv(s) && Read(s, s', c, chunk)
    ensures Inv(s')
  {
    MovesKeeps(s, s', c);
    MovesList(s, s', c);
    MovesSent(s, s', c);
    MovesFifo(s, s', c);
  }

  lemma ReadEndKeeps(s: Sys, s': Sys, c: nat)
    requires Inv(s) && ReadEnd(s, s', c)
    ensures Inv(s')
  {
    assert s'.conns[c].read == s.conns[c].read + s'.conns[c].phase.Waiting();
    MovesKeeps(s, s', c);
    MovesList(s, s', c);
    MovesSent(s, s', c);
    MovesFifo(s, s', c);
  }

  lemma MutexStepKeeps(s: Sys, s': Sys)
    requires Inv(s)
    requires WriteOne(s, s') || exists c :: Register(s, s', c) || Lock(s, s', c) || Unlock(s, s', c) || Remove(s, s', c)
    ensures Inv(s')
  {
    if WriteOne(s, s') {
      WriteOneKeeps(s, s');
      WriteOneList(s, s');
      WriteOneSent(s, s');
      WriteOneFifo(s, s');
    } else if c :| Register(s, s', c) {
      RegisterKeeps(s, s', c);
      RegisterList(s, s', c);
      RegisterSent(s, s', c);
    } else if c :| Lock(s, s', c) {
      LockKeeps(s, s', c);
      LockList(s, s', c);
      LockSent(s, s', c);
      LockFifo(s, s', c);
    } else if c :| Unlock(s, s', c) {
      UnlockKeeps(s, s', c);
      UnlockList(s, s', c);
      UnlockSent(s, s', c);
    } else {
      var c :| Remove(s, s', c);
      RemoveKeeps(s, s', c);
      RemoveList(s, s', c);
      RemoveSent(s, s', c);
    }
  }

  lemma NextKeepsInv(s: Sys, s': Sys)
    requires Inv(s) && Next(s, s')
    ensures Inv(s')
  {
    if fd :| Accept(s, s', fd) {
      AcceptKeeps(s, s', fd);
      AcceptList(s, s', fd);
      AcceptSent(s, s', fd);
      AcceptFifo(s, s', fd);
    } else if c :| Spawn(s, s', c) {
      SpawnKeeps(s, s', c);
    } else if c, chunk :| Read(s, s', c, chunk) {
      ReadKeeps(s, s', c, chunk);
    } else if c :| ReadEnd(s, s', c) {
      ReadEndKeeps(s, s', c);
    } else if c :| Close(s, s', c) {
      CloseKeeps(s, s', c);
      CloseList(s, s', c);
      CloseSent(s, s', c);
      CloseFifo(s, s', c);
    } else {
      MutexStepKeeps(s, s');
    }
  }

  lemma {:induction false} RunInv(run: seq<Sys>, k: nat)
    requires IsRun(run) && k < |run|
    ensures Inv(run[k])
  {
    if k == 0 {
    } else {
      RunInv(run, k - 1);
      assert StepAt(run, k - 1);
      NextKeepsInv(run[k - 1], run[k]);
    }
  }
}
