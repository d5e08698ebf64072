/**
 What the threads of chat_server.c do, and that they do it: the life of a handler, that no handler is ever
 held up by anything but the mutex, and a run for every sequence of messages.
 */
module ChatRuns {
  import opened ByteTypes
  import opened ChatProtocol
  import opened ChatTheorems
  import opened ClientList
  import opened Sequences

  // ----- The life of a handler

  /** A connection is listed, then its handler reads and sends in turn, until its read finds the end. */
  ghost predicate Continues(x: Conn, x': Conn) {
    && x'.fd == x.fd
    && match x.phase
       case Fresh => x'.phase.Listed? && x'.read == x.read
       case Listed => x'.phase.Reading? && x'.read == x.read
       case Reading => (x'.phase.Leaving? && x'.read == x.read)
                       || (x'.phase.Ready? && x'.read == x.read + [x'.phase.chunk])
       case Ready(_) => x'.phase.Sending? && x'.read == x.read
       case Sending => x'.phase.Reading? && x'.read == x.read
       case Leaving => x'.phase.Closing? && x'.read == x.read
       case Closing => x'.phase.Gone? && x'.read == x.read
       case Gone => false
  }

  /** A handler is where it was. */
  ghost predicate Stays(x: Conn, x': Conn) { x'.phase == x.phase && x'.read == x.read }

  /** The steps of connection d's threads change no other connection. */
  ghost predicate OnlyMoves(s: Sys, s': Sys, d: nat) {
    d < |s.conns| == |s'.conns| && s'.conns == s.conns[d := s'.conns[d]] && Continues(s.conns[d], s'.conns[d])
  }

  lemma MutexContinues(s: Sys, s': Sys, d: nat)
    requires MainOk(s) && (Register(s, s', d) || Lock(s, s', d) || Unlock(s, s', d) || Remove(s, s', d))
    ensures OnlyMoves(s, s', d)
  {
  }

  lemma OtherContinues(s: Sys, s': Sys, d: nat)
    requires MainOk(s)
    requires Spawn(s, s', d) || ReadEnd(s, s', d) || Close(s, s', d) || exists chunk :: Read(s, s', d, chunk)
    ensures OnlyMoves(s, s', d)
  {
  }

  lemma StepContinues(s: Sys, s': Sys, c: nat)
    requires MainOk(s) && Next(s, s') && c < |s.conns|
    ensures c < |s'.conns| && (Stays(s.conns[c], s'.conns[c]) || Continues(s.conns[c], s'.conns[c]))
  {
    if d: nat :| Register(s, s', d) || Lock(s, s', d) || Unlock(s, s', d) || Remove(s, s', d) {
      MutexContinues(s, s', d);
    } else if d: nat :| Spawn(s, s', d) || ReadEnd(s, s', d) || Close(s, s', d) {
      OtherContinues(s, s', d);
    } else if d: nat, chunk :| Read(s, s', d, chunk) {
      OtherContinues(s, s', d);
    } else if WriteOne(s, s') {
      assert Stays(s.conns[c], s'.conns[c]);
    } else {
      assert exists fd :: Accept(s, s', fd);
    }
  }

  /** In every run each step leaves a handler where it is or takes it to its next point. */
  lemma HandlerSteps(run: seq<Sys>, k: nat, c: nat)
    requires IsRun(run) && k + 1 < |run| && c < |run[k].conns|
    ensures c < |run[k + 1].conns|
    ensures Stays(run[k].conns[c], run[k + 1].conns[c]) || Continues(run[k].conns[c], run[k + 1].conns[c])
  {
    RunInv(run, k);
    assert StepAt(run, k);
    StepContinues(run[k], run[k + 1], c);
  }

  /** In every run, whenever the mutex is free, every thread that has not closed its connection can go on. */
  lemma HandlersProceed(run: seq<Sys>, k: nat, c: nat)
    requires IsRun(run) && k < |run| && run[k].holder.None?
    requires c < |run[k].conns| && !run[k].conns[c].phase.Gone?
    ensures exists s' :: Next(run[k], s') && c < |s'.conns| && Continues(run[k].conns[c], s'.conns[c])
  {
    RunInv(run, k);
    var s' := GoOn(run[k], c);
    assert Next(run[k], s');
  }

  /** Connection c goes on, and what changes with it. */
  ghost predicate GoesOn(s: Sys, s': Sys, c: nat) {
    && OnlyMoves(s, s', c) && s'.conns[c].from == (if s.conns[c].phase.Fresh? then |s.log| else s.conns[c].from)
    && s'.main == (match s.conns[c].phase case Fresh => Spawning(c) case Listed => Accepting case _ => s.main)
    && if s.conns[c].phase.Ready? then
         var chunk := s.conns[c].phase.chunk;
         s'.holder == Some(Broadcast(c, chunk, 0)) && s'.log == s.log + [chunk] && s'.senders == s.senders + [c]
       else s'.holder == s.holder && s'.log == s.log && s'.senders == s.senders
  }

  lemma GoOn(s: Sys, c: nat) returns (s': Sys)
    requires Inv(s) && s.holder.None? && c < |s.conns| && !s.conns[c].phase.Gone?
    ensures Next(s, s') && GoesOn(s, s', c)
  {
    var x := s.conns[c];
    match x.phase
    case Fresh =>
      s' := SetConn(s, c, x.(phase := Listed, from := |s.log|)).(clients := s.clients + [x.fd], main := Spawning(c));
      assert Register(s, s', c);
    case Listed =>
      s' := SetConn(s, c, x.(phase := Reading)).(main := Accepting);
      assert Spawn(s, s', c);
    case Reading =>
      s' := SetConn(s, c, x.(phase := Leaving));
      assert ReadEnd(s, s', c);
    case Ready(chunk) =>
      s' := SetConn(s, c, x.(phase := Sending))
            .(holder := Some(Broadcast(c, chunk, 0)), log := s.log + [chunk], senders := s.senders + [c]);
      assert Lock(s, s', c);
    case Leaving =>
      s' := SetConn(s, c, x.(phase := Closing, to := |s.log|)).(clients := Removed(s.clients, x.fd));
      assert Remove(s, s', c);
    case Closing =>
      s' := SetConn(s, c, x.(phase := Gone)).(owner := s.owner - {x.fd});
      assert Close(s, s', c);
  }

  // ----- The list keeps the order of the connections

  ghost predicate InOrder(s: Sys) {
    (s.main.Registering? || s.main.Spawning? ==> s.main.c == |s.conns| - 1) && Ascends(s.clients, s.owner)
  }

  /** The fds of list belong to connections with ever higher numbers. */
  ghost predicate Ascends(list: seq<int>, owner: map<int, nat>) {
    && (forall fd :: fd in list ==> fd in owner)
    && forall i, j :: 0 <= i < j < |list| ==> owner[list[i]] < owner[list[j]]
  }

  lemma AscendsFurther(list: seq<int>, owner: map<int, nat>, fd: int)
    requires Ascends(list, owner) && fd in owner && forall f :: f in list ==> owner[f] < owner[fd]
    ensures Ascends(list + [fd], owner)
  {
    var longer := list + [fd];
    forall i, j | 0 <= i < j < |longer|
      ensures longer[i] in owner && longer[j] in owner && owner[longer[i]] < owner[longer[j]]
    {
      assert longer[i] == list[i] && list[i] in list;
      if j < |list| { assert longer[j] == list[j] && list[j] in list; } else { assert longer[j] == fd; }
    }
  }

  lemma RegisterInOrder(s: Sys, s': Sys, c: nat)
    requires FdsOwned(s) && ListOk(s) && InOrder(s) && Register(s, s', c) && s.conns[c].phase.Fresh?
    ensures InOrder(s')
  {
    forall fd | fd in s.clients
      ensures s.owner[fd] < c
    {
      assert s.conns[s.owner[fd]].phase.Active();
    }
    AscendsFurther(s.clients, s.owner, s.conns[c].fd);
  }

  lemma RemoveInOrder(s: Sys, s': Sys, c: nat)
    requires FdsOwned(s) && ListOk(s) && InOrder(s) && Remove(s, s', c)
    ensures InOrder(s')
  {
    var k :| 0 <= k < |s.clients| && s.clients[k] == s.conns[c].fd;
    RemovedListed(s.clients, k);
    AscendsWithout(s.clients, s.owner, k);
  }

  lemma AscendsWithout(list: seq<int>, owner: map<int, nat>, k: nat)
    requires k < |list| && Ascends(list, owner)
    ensures Ascends(list[..k] + list[k + 1..], owner)
  {
    var rest := list[..k] + list[k + 1..];
    forall i | 0 <= i < |rest|
      ensures rest[i] == list[if i < k then i else i + 1] && rest[i] in owner
    {
      assert list[if i < k then i else i + 1] in list;
    }
  }

  lemma AcceptInOrder(s: Sys, s': Sys, fd: int)
    requires InOrder(s) && Accept(s, s', fd)
    ensures InOrder(s')
  {
  }

  lemma CloseInOrder(s: Sys, s': Sys, c: nat)
    requires FdsOwned(s) && ListOk(s) && InOrder(s) && Close(s, s', c)
    ensures InOrder(s')
  {
    assert s.conns[c].fd !in s.clients;
  }

  /** The other steps leave the list and the fds alone. */
  lemma OtherInOrder(s: Sys, s': Sys)
    requires InOrder(s) && Next(s, s')
    requires !exists fd :: Accept(s, s', fd)
    requires !exists c :: Register(s, s', c) || Remove(s, s', c) || Close(s, s', c)
    ensures InOrder(s')
  {
    assert s'.clients == s.clients && s'.owner == s.owner && |s'.conns| == |s.conns|;
  }

  /** In every run the list has the sockets in the order in which they were accepted. */
  lemma {:induction false} ListInOrder(run: seq<Sys>, k: nat)
    requires IsRun(run) && k < |run|
    ensures InOrder(run[k])
  {
    if k == 0 {
    } else {
      ListInOrder(run, k - 1);
      RunInv(run, k - 1);
      assert StepAt(run, k - 1);
      var s, s' := run[k - 1], run[k];
      if c :| Register(s, s', c) {
        RegisterInOrder(s, s', c);
      } else if c :| Remove(s, s', c) {
        RemoveInOrder(s, s', c);
      } else if c :| Close(s, s', c) {
        CloseInOrder(s, s', c);
      } else if fd :| Accept(s, s', fd) {
        AcceptInOrder(s, s', fd);
      } else {
        OtherInOrder(s, s');
      }
    }
  }

  // ----- A run for every sequence of messages

  ghost predicate Reachable(s: Sys) { exists run: seq<Sys> :: IsRun(run) && run[|run| - 1] == s }

  lemma ReachableInv(s: Sys)
    requires Reachable(s)
    ensures Inv(s)
  {
    var run: seq<Sys> :| IsRun(run) && run[|run| - 1] == s;
    RunInv(run, |run| - 1);
  }

  lemma Extend(s: Sys, s': Sys)
    requires Reachable(s) && Next(s, s')
    ensures Reachable(s')
  {
    var run: seq<Sys> :| IsRun(run) && run[|run| - 1] == s;
    var longer := run + [s'];
    forall k | 0 <= k < |run|
      ensures StepAt(longer, k)
    {
      if k < |run| - 1 { assert StepAt(run, k); }
    }
    assert IsRun(longer) && longer[|longer| - 1] == s';
  }

  /** n clients are connected and their handlers read, except for those before gone, which have left. */
  ghost predicate Idle(s: Sys, n: nat, gone: nat) {
    && Reachable(s) && s.main.Accepting? && s.holder.None? && gone <= n == |s.conns|
    && forall c :: 0 <= c < n ==> (if c < gone then s.conns[c].phase.Gone? else s.conns[c].phase.Reading?)
                                  && s.conns[c].fd == c && s.conns[c].from == 0
  }

  /** The next thread of connection c goes on. */
  lemma Goes(s: Sys, c: nat) returns (s': Sys)
    requires Reachable(s) && s.holder.None? && c < |s.conns| && !s.conns[c].phase.Gone?
    ensures Reachable(s') && GoesOn(s, s', c)
  {
    ReachableInv(s);
    s' := GoOn(s, c);
    Extend(s, s');
  }

  lemma ConnectOne(s: Sys, n: nat) returns (s': Sys)
    requires Idle(s, n, 0) && s.log == []
    ensures Idle(s', n + 1, 0) && s'.log == [] && s'.senders == s.senders
  {
    NewFd(s, n);
    var s1 := s.(conns := s.conns + [Conn(n, Fresh, [], [], 0, 0)], owner := s.owner[n := n], main := Registering(n));
    assert Accept(s, s1, n);
    Extend(s, s1);
    var s2 := Goes(s1, n);
    s' := Goes(s2, n);
  }

  lemma NewFd(s: Sys, n: nat)
    requires Idle(s, n, 0)
    ensures n !in s.owner
  {
    ReachableInv(s);
    assert forall fd :: fd in s.owner ==> s.conns[s.owner[fd]].fd == fd;
  }

  lemma {:induction false} Connect(n: nat) returns (s: Sys)
    ensures Idle(s, n, 0) && s.log == [] && s.senders == []
  {
    if n == 0 {
      s := Sys([], map[], [], Accepting, None, [], []);
      assert IsRun([s]) && [s][|[s]| - 1] == s;
    } else {
      s := Connect(n - 1);
      s := ConnectOne(s, n - 1);
    }
  }

  /** A broadcast is under way in a state that is idle but for it. */
  ghost predicate Busy(s: Sys, n: nat, c: nat) {
    && Reachable(s) && s.main.Accepting? && |s.conns| == n && c < n
    && s.holder.Some? && s.holder.value.c == c
    && forall d :: 0 <= d < n ==> (if d == c then s.conns[d].phase.Sending? else s.conns[d].phase.Reading?)
                                  && s.conns[d].fd == d && s.conns[d].from == 0
  }

  /** The connection of entry i of the list. */
  lemma ListedAt(s: Sys, i: nat) returns (d: nat)
    requires FdsOwned(s) && ListOk(s) && i < |s.clients|
    ensures s.clients[i] in s.owner && s.owner[s.clients[i]] == d < |s.conns| && s.conns[d].phase.Active()
  {
    var fd := s.clients[i];
    assert fd in s.clients;
    d := s.owner[fd];
  }

  lemma WriteNext(s: Sys, n: nat, c: nat) returns (s': Sys)
    requires Busy(s, n, c) && s.holder.value.i < |s.clients|
    ensures Busy(s', n, c) && s'.log == s.log && s'.senders == s.senders && s'.clients == s.clients
    ensures s'.holder.value.i == s.holder.value.i + 1
  {
    ReachableInv(s);
    var b := s.holder.value;
    var d := ListedAt(s, b.i);
    var next := s.(holder := Some(Broadcast(c, b.chunk, b.i + 1)));
    s' := SetConn(next, d, s.conns[d].(sent := s.conns[d].sent + [b.chunk]));
    assert WriteOne(s, s');
    Extend(s, s');
  }

  /** The rest of a broadcast. */
  lemma {:induction false} WriteOn(s: Sys, n: nat, c: nat) returns (s': Sys)
    requires Busy(s, n, c)
    ensures Idle(s', n, 0) && s'.log == s.log && s'.senders == s.senders
    decreases |s.clients| - s.holder.value.i
  {
    if s.holder.value.i >= |s.clients| {
      s' := SetConn(s, c, s.conns[c].(phase := Reading)).(holder := None);
      assert Unlock(s, s', c);
      Extend(s, s');
    } else {
      s' := WriteNext(s, n, c);
      s' := WriteOn(s', n, c);
    }
  }

  /** Handler c reads a chunk and broadcasts it. */
  lemma Say(s: Sys, n: nat, c: nat, chunk: Chunk) returns (s': Sys)
    requires Idle(s, n, 0) && c < n && chunk != []
    ensures Idle(s', n, 0) && s'.log == s.log + [chunk] && s'.senders == s.senders + [c]
  {
    var s1 := SetConn(s, c, s.conns[c].(phase := Ready(chunk), read := s.conns[c].read + [chunk]));
    assert Read(s, s1, c, chunk);
    Extend(s, s1);
    var s2 := Goes(s1, c);
    s' := WriteOn(s2, n, c);
  }

  lemma {:induction false} SayAll(n: nat, chunks: seq<Chunk>, senders: seq<nat>) returns (s: Sys)
    requires |chunks| == |senders| && forall k :: 0 <= k < |chunks| ==> chunks[k] != [] && senders[k] < n
    ensures Idle(s, n, 0) && s.log == chunks && s.senders == senders
  {
    if chunks == [] {
      s := Connect(n);
    } else {
      var last := |chunks| - 1;
      var before := SayAll(n, chunks[..last], senders[..last]);
      s := Say(before, n, senders[last], chunks[last]);
      assert chunks == chunks[..last] + [chunks[last]] && senders == senders[..last] + [senders[last]];
    }
  }

  /** Whatever n clients send, in whatever order, there is a run that reads all of it and sends it to all of them. */
  lemma EveryScriptRuns(n: nat, chunks: seq<Chunk>, senders: seq<nat>) returns (run: seq<Sys>)
    requires |chunks| == |senders| && forall k :: 0 <= k < |chunks| ==> chunks[k] != [] && senders[k] < n
    ensures IsRun(run)
    ensures var s := run[|run| - 1];
            && s.holder.None? && |s.conns| == n && s.log == chunks && s.senders == senders
            && forall c :: 0 <= c < n ==>
                 && s.conns[c].phase.Reading? && s.conns[c].sent == chunks
                 && s.conns[c].read == Own(chunks, senders, c, |chunks|)
  {
    var s := SayAll(n, chunks, senders);
    run :| IsRun(run) && run[|run| - 1] == s;
    forall c | 0 <= c < n
      ensures s.conns[c].sent == chunks && s.conns[c].read == Own(chunks, senders, c, |chunks|)
    {
      TotalOrder(run, |run| - 1, c);
      PerSenderFifo(run, |run| - 1, c);
    }
  }

  /** Handler c sees the end of its stream, removes its socket and closes it. */
  lemma Leave(s: Sys, n: nat, c: nat) returns (s': Sys)
    requires Idle(s, n, c) && c < n
    ensures Idle(s', n, c + 1) && s'.log == s.log
  {
    var s1 := SetConn(s, c, s.conns[c].(phase := Leaving));
    assert ReadEnd(s, s1, c);
    Extend(s, s1);
    var s2 := Goes(s1, c);
    s' := Goes(s2, c);
  }

  lemma {:induction false} LeaveAll(s: Sys, n: nat, c: nat) returns (s': Sys)
    requires Idle(s, n, c)
    ensures Idle(s', n, n) && s'.log == s.log
    decreases n - c
  {
    if c == n {
      s' := s;
    } else {
      s' := Leave(s, n, c);
      s' := LeaveAll(s', n, c + 1);
    }
  }

  /** And afterwards all of them can leave, until no socket is listed or open. */
  lemma EveryoneCanLeave(n: nat, chunks: seq<Chunk>, senders: seq<nat>) returns (run: seq<Sys>)
    requires |chunks| == |senders| && forall k :: 0 <= k < |chunks| ==> chunks[k] != [] && senders[k] < n
    ensures IsRun(run)
    ensures var s := run[|run| - 1]; |s.conns| == n && s.log == chunks && s.clients == [] && s.owner == map[]
  {
    var s := SayAll(n, chunks, senders);
    s := LeaveAll(s, n, 0);
    ReachableInv(s);
    run :| IsRun(run) && run[|run| - 1] == s;
    forall fd
      ensures fd !in s.owner
    {
    }
    if s.clients != [] { var d := ListedAt(s, 0); }
  }
}
