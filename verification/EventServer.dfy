/**
 The servers of select/echo_select_server.c and epoll/epoll_eplt_server.c as they update their sets of fds, and
 their loops over any number of rounds. Assumptions: as in EventLoop.dfy.
 */
module EventServer {
  import opened ByteTypes
  import opened EventDrain
  import opened EventLoop
  import opened Sequences

  // ----- What the loops go through

  /** The clients send, then one round handles all that is ready, in ascending order if ordered. */
  ghost predicate RoundAt(bufSize: nat, ordered: bool, history: seq<Kernel>, r: nat)
    requires 2 * r + 2 < |history|
  {
    var k, k' := history[2 * r + 1], history[2 * r + 2];
    && Arrived(history[2 * r], k) && k.Valid()
    && exists order, served ::
         Thorough(k, order) && (ordered ==> Sorted(order)) && RoundDone(k, k', order, served, bufSize)
  }

  ghost predicate History(bufSize: nat, ordered: bool, history: seq<Kernel>, rounds: nat) {
    && |history| == 2 * rounds + 1
    && forall r :: 0 <= r < rounds ==> RoundAt(bufSize, ordered, history, r)
  }

  ghost predicate NothingArrives(history: seq<Kernel>) {
    forall i :: 0 <= i < |history| - 1 ==> NoArrivals(history[i], history[i + 1])
  }

  lemma OneMoreRound(bufSize: nat, ordered: bool, history: seq<Kernel>, rounds: nat, k: Kernel, k': Kernel,
                     order: seq<nat>, served: seq<nat>) returns (longer: seq<Kernel>)
    requires History(bufSize, ordered, history, rounds) && Arrived(history[2 * rounds], k) && k.Valid()
    requires Thorough(k, order) && (ordered ==> Sorted(order)) && RoundDone(k, k', order, served, bufSize)
    ensures History(bufSize, ordered, longer, rounds + 1) && longer == history + [k, k']
  {
    longer := history + [k, k'];
    forall r | 0 <= r < rounds + 1
      ensures RoundAt(bufSize, ordered, longer, r)
    {
      if r < rounds {
        assert RoundAt(bufSize, ordered, history, r);
        assert longer[2 * r + 1] == history[2 * r + 1] && longer[2 * r + 2] == history[2 * r + 2];
      } else {
        assert longer[2 * r] == history[2 * r] && longer[2 * r + 1] == k && longer[2 * r + 2] == k';
      }
    }
  }

  /** If nothing arrives a round of the history is a round of EventDrain. */
  lemma RoundDrains(bufSize: nat, ordered: bool, history: seq<Kernel>, rounds: nat, r: nat)
    requires History(bufSize, ordered, history, rounds) && NothingArrives(history) && r < rounds
    requires history[2 * r].Valid()
    ensures DrainRound(bufSize, history[2 * r], history[2 * r + 2])
  {
    assert RoundAt(bufSize, ordered, history, r);
    assert NoArrivals(history[2 * r], history[2 * r + 1]) && NoArrivals(history[2 * r + 1], history[2 * r + 2]);
    NothingChanges(history[2 * r], history[2 * r + 1]);
  }

  lemma NothingChanges(k: Kernel, k': Kernel)
    requires k.Valid() && Arrived(k, k') && NoArrivals(k, k')
    ensures k' == k
  {
    forall c | 0 <= c < |k.conns|
      ensures k'.conns[c] == k.conns[c]
    {
      var x, x' := k.conns[c], k'.conns[c];
      assert x.Conserved() && x'.Conserved();
      assert x.unread == x.arrived[|x.echoed|..] && x'.unread == x'.arrived[|x'.echoed|..];
    }
  }

  /** The states of the history before each round and after the last. */
  lemma {:induction false} EvenStates(bufSize: nat, ordered: bool, history: seq<Kernel>, rounds: nat, n: nat)
    returns (ks: seq<Kernel>)
    requires History(bufSize, ordered, history, rounds) && NothingArrives(history) && n <= rounds
    requires history[0].Valid() && Answered(history[0])
    ensures IsDrain(bufSize, false, ks) && |ks| == n + 1 && ks[0] == history[0] && ks[n] == history[2 * n]
  {
    if n == 0 {
      ks := [history[0]];
    } else {
      var before := EvenStates(bufSize, ordered, history, rounds, n - 1);
      DrainValid(bufSize, false, before, n - 1);
      RoundDrains(bufSize, ordered, history, rounds, n - 1);
      ks := before + [history[2 * n]];
      forall i | 0 <= i < n
        ensures DrainAt(bufSize, false, ks, i)
      {
        if i < n - 1 { assert DrainAt(bufSize, false, before, i); }
      }
    }
  }

  /** Once the clients have stopped sending, the loop echoes everything in as many rounds as bytes wait on one fd. */
  lemma LoopDrains(bufSize: nat, ordered: bool, history: seq<Kernel>, rounds: nat)
    requires History(bufSize, ordered, history, rounds) && NothingArrives(history)
    requires history[0].Valid() && Answered(history[0])
    ensures rounds >= MostUnread(history[0].conns, |history[0].conns|) ==> AllEchoed(history[2 * rounds])
  {
    var ks := EvenStates(bufSize, ordered, history, rounds, rounds);
    if rounds >= MostUnread(history[0].conns, |history[0].conns|) {
      RoundsDrain(bufSize, false, ks, rounds);
    }
  }

  // ----- The servers

  class Server {
    const serverSocket: nat
    const bufSize: nat
    /** socks, or the interest list of epoll. */
    var registered: set<nat>
    var fdMax: nat
    var owner: map<nat, nat>
    var conns: seq<Conn>

    function View(): Kernel
      reads this
    {
      Kernel(serverSocket, registered, owner, conns)
    }

    /** fdMax bounds every member of socks. */
    ghost predicate Valid()
      reads this
    {
      bufSize > 0 && View().Valid() && forall fd :: fd in registered ==> fd <= fdMax
    }

    constructor (serverSocket: nat, bufSize: nat)
      requires bufSize > 0
      ensures Valid() && View() == Kernel(serverSocket, {serverSocket}, map[], []) && this.bufSize == bufSize
      ensures fdMax == serverSocket + 1
    {
      this.serverSocket, this.bufSize := serverSocket, bufSize;
      registered, fdMax := {serverSocket}, serverSocket + 1;
      owner, conns := map[], [];
    }

    /** Any number of clients send any bytes, or end their streams. */
    method Arrivals()
      requires Valid()
      modifies this`conns
      ensures Valid() && Arrived(old(View()), View())
    {
      var events: nat := *;
      while events > 0
        invariant Valid() && Grown(old(conns), conns)
      {
        var c: nat :| c <= |conns|;
        var bytes: seq<byte> := *;
        if c < |conns| && !conns[c].ended {
          var x := conns[c];
          conns := conns[c := Conn(x.fd, x.arrived + bytes, x.echoed, x.unread + bytes, bytes == [])];
        }
        events := events - 1;
      }
    }

    /** accept, FD_SET or EPOLL_CTL_ADD, and the update of fdMax. */
    method AcceptClient() returns (clientSocket: nat)
      requires Valid()
      modifies this
      ensures Valid() && fdMax == if clientSocket > old(fdMax) then clientSocket else old(fdMax)
      ensures Accepted(old(View()), View(), clientSocket)
    {
      assert fdMax + 1 !in registered;
      clientSocket :| clientSocket !in owner && clientSocket != serverSocket;
      owner := owner[clientSocket := |conns|];
      conns := conns + [Conn(clientSocket, [], [], [], false)];
      registered := registered + {clientSocket};
      if clientSocket > fdMax { fdMax := clientSocket; }
      AcceptedValid(old(View()), View(), clientSocket);
    }

    /** read and echo, or at the end of the stream deregister and close. */
    method ServeClient(fd: nat)
      requires Valid() && fd != serverSocket && View().Reportable(fd)
      modifies this
      ensures Valid() && fdMax == old(fdMax) && Served(old(View()), View(), fd, bufSize)
    {
      var c := owner[fd];
      var x := conns[c];
      if x.unread == [] {
        registered := registered - {fd};
        owner := owner - {fd};
      } else {
        var strLen: nat :| 1 <= strLen <= |x.unread| && strLen <= bufSize;
        var message := x.unread[..strLen];
        conns := conns[c := x.(echoed := x.echoed + message, unread := x.unread[strLen..])];
      }
      ServedValid(old(View()), View(), fd, bufSize);
    }

    /** One reported fd, after the clients may have sent more. */
    method HandleReady(fd: nat, ghost k0: Kernel, ghost done: seq<nat>, ghost todo: set<nat>, served: seq<nat>)
      returns (served': seq<nat>)
      requires Valid() && k0.Valid() && Underway(k0, View(), done, todo, served, bufSize) && fd in todo
      modifies this
      ensures Valid() && Underway(k0, View(), done + [fd], todo - {fd}, served', bufSize)
      ensures fdMax >= old(fdMax) && (fd != serverSocket ==> fdMax == old(fdMax))
    {
      ghost var k := View();
      Arrivals();
      ghost var k1 := View();
      ArrivedKeeps(k0, k, k1, done, todo, served, bufSize);
      if fd == serverSocket {
        var clientSocket := AcceptClient();
        AcceptedKeeps(k0, k1, View(), clientSocket, done, todo, served, bufSize);
        return served;
      }
      served' := served + [owner[fd]];
      ServeClient(fd);
      ServedKeeps(k0, k1, View(), fd, done, todo, served, bufSize);
    }

    /**
     Lines 47 to 71 of the select server. cpySocks is what select returned. Although fdMax may grow and fd
     numbers be reused in the middle, the round reads each reported connection once, in ascending order of
     fds, and no connection that was accepted meanwhile.
     */
    method SelectRound(cpySocks: set<nat>) returns (served: seq<nat>)
      requires Valid() && forall fd :: fd in cpySocks ==> View().Reportable(fd)
      modifies this
      ensures Valid() && RoundDone(old(View()), View(), Ascending(cpySocks, old(fdMax) + 1), served, bufSize)
    {
      ghost var k0, bound := View(), fdMax + 1;
      served := [];
      Beginning(k0, From(cpySocks, 0), bufSize);
      var i := 0;
      while i < fdMax + 1
        invariant Valid() && bound <= fdMax + 1
        invariant i > serverSocket || fdMax + 1 == bound
        invariant Underway(k0, View(), Ascending(cpySocks, i), From(cpySocks, i), served, bufSize)
        decreases i <= serverSocket, fdMax + 1 - i
      {
        served := SelectAt(i, k0, cpySocks, served);
        i := i + 1;
      }
      AscendingUpTo(cpySocks, bound, i);
      AscendingMembers(cpySocks, i);
      Ending(k0, View(), Ascending(cpySocks, i), From(cpySocks, i), served, bufSize);
    }

    /** The body of the loop for fd i. */
    method SelectAt(i: nat, ghost k0: Kernel, cpySocks: set<nat>, served: seq<nat>) returns (served': seq<nat>)
      requires Valid() && k0.Valid() && Underway(k0, View(), Ascending(cpySocks, i), From(cpySocks, i), served, bufSize)
      modifies this
      ensures Valid() && Underway(k0, View(), Ascending(cpySocks, i + 1), From(cpySocks, i + 1), served', bufSize)
      ensures fdMax >= old(fdMax) && (i != serverSocket ==> fdMax == old(fdMax))
    {
      NextFd(cpySocks, i);
      if i in cpySocks {
        served' := HandleReady(i, k0, Ascending(cpySocks, i), From(cpySocks, i), served);
      } else {
        served' := served;
      }
    }

    /** Lines 46 to 70 of the epoll servers: events holds the fds that epoll_wait reported, each once. */
    method EpollRound(events: seq<nat>) returns (served: seq<nat>)
      requires Valid() && Distinct(events) && forall fd :: fd in events ==> View().Reportable(fd)
      modifies this
      ensures Valid() && RoundDone(old(View()), View(), events, served, bufSize)
    {
      served := [];
      ghost var k0 := View();
      Beginning(k0, Members(events[0..]), bufSize);
      for i := 0 to |events|
        invariant Valid() && Underway(k0, View(), events[..i], Members(events[i..]), served, bufSize)
      {
        NextEvent(events, i);
        served := HandleReady(events[i], k0, events[..i], Members(events[i..]), served);
      }
      assert events[..|events|] == events;
      Ending(k0, View(), events, Members(events[|events|..]), served, bufSize);
    }

    /** All client fds that are ready, and the listening socket if a client waits. */
    method Select() returns (cpySocks: set<nat>, ghost order: seq<nat>)
      requires Valid()
      ensures forall fd :: fd in cpySocks ==> View().Reportable(fd)
      ensures order == Ascending(cpySocks, fdMax + 1) && Thorough(View(), order) && Sorted(order)
    {
      var clientWaits: bool := *;
      var ready := set fd | fd in owner && View().Reportable(fd);
      cpySocks := if clientWaits then ready + {serverSocket} else ready;
      order := Ascending(cpySocks, fdMax + 1);
      AscendingMembers(cpySocks, fdMax + 1);
    }

    /**
     Lines 33 to 71 for any number of rounds. select reports every client fd on which a read does not block,
     and the listening socket if a client waits to be accepted. history lists what the loop went through.
     */
    method SelectLoop(rounds: nat) returns (ghost history: seq<Kernel>)
      requires Valid() && Answered(View())
      modifies this
      ensures Valid() && Answered(View())
      ensures History(bufSize, true, history, rounds) && history[0] == old(View()) && history[2 * rounds] == View()
      ensures NothingArrives(history) && rounds >= MostUnread(history[0].conns, |history[0].conns|) ==>
                AllEchoed(View())
    {
      ghost var k0 := View();
      history := [k0];
      for round := 0 to rounds
        invariant Valid() && Answered(View())
        invariant History(bufSize, true, history, round) && history[0] == k0 && history[2 * round] == View()
      {
        Arrivals();
        ghost var k := View();
        ArrivedAnswers(history[2 * round], k);
        var cpySocks, order := Select();
        var served := SelectRound(cpySocks);
        RoundAnswers(k, View(), order, served, bufSize);
        history := OneMoreRound(bufSize, true, history, round, k, View(), order, served);
      }
      if NothingArrives(history) { LoopDrains(bufSize, true, history, rounds); }
    }

    /** The same for lines 38 to 71 of the epoll servers, with room for all events and in any order. */
    method EpollLoop(rounds: nat) returns (ghost history: seq<Kernel>)
      requires Valid() && Answered(View())
      modifies this
      ensures Valid() && Answered(View())
      ensures History(bufSize, false, history, rounds) && history[0] == old(View()) && history[2 * rounds] == View()
      ensures NothingArrives(history) && rounds >= MostUnread(history[0].conns, |history[0].conns|) ==>
                AllEchoed(View())
    {
      ghost var k0 := View();
      history := [k0];
      for round := 0 to rounds
        invariant Valid() && Answered(View())
        invariant History(bufSize, false, history, round) && history[0] == k0 && history[2 * round] == View()
      {
        Arrivals();
        ghost var k := View();
        ArrivedAnswers(history[2 * round], k);
        var events := EpollWait();
        var served := EpollRound(events);
        RoundAnswers(k, View(), events, served, bufSize);
        history := OneMoreRound(bufSize, false, history, round, k, View(), events, served);
      }
      if NothingArrives(history) { LoopDrains(bufSize, false, history, rounds); }
    }

    /** All client fds that are ready, in any order, and the listening socket if a client waits. */
    method EpollWait() returns (events: seq<nat>)
      requires Valid()
      ensures Thorough(View(), events) && Distinct(events)
    {
      var clientWaits: bool := *;
      var ready := set fd | fd in owner && View().Reportable(fd);
      var left := if clientWaits then ready + {serverSocket} else ready;
      events := [];
      while left != {}
        invariant forall fd :: fd in events ==> View().Reportable(fd) && fd !in left
        invariant forall fd :: fd in left ==> View().Reportable(fd)
        invariant forall fd :: fd in ready ==> fd in left || fd in events
        invariant Distinct(events)
        decreases left
      {
        var fd :| fd in left;
        left := left - {fd};
        events := events + [fd];
      }
    }
  }
}
