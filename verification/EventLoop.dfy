/**
 The dispatch loops of select/echo_select_server.c and epoll/epoll_eplt_server.c: one round serves the fds
 that the kernel reported, while clients keep sending and closed fd numbers are given out again.
 Assumptions: read and accept do not fail, writes are whole, accept returns an fd that is not open.
 */
module EventLoop {
  import opened ByteTypes
  import opened Sequences

  /** A connection since it was accepted as fd: what the client sent, what was echoed, what waits to be read. */
  datatype Conn = Conn(fd: nat, arrived: seq<byte>, echoed: seq<byte>, unread: seq<byte>, ended: bool) {
    predicate Conserved() { arrived == echoed + unread }

    /** A read would not block. */
    predicate Readable() { unread != [] || ended }
  }

  /** The clients sent more, and nothing else happened. */
  ghost predicate Grown(conns: seq<Conn>, conns': seq<Conn>) {
    && |conns| == |conns'|
    && forall c :: 0 <= c < |conns| ==>
         && conns'[c].fd == conns[c].fd
         && conns[c].arrived <= conns'[c].arrived && conns'[c].echoed == conns[c].echoed
         && conns[c].unread <= conns'[c].unread && (conns[c].ended ==> conns'[c] == conns[c])
         && (conns[c].Conserved() ==> conns'[c].Conserved())
  }

  /**
   In a round nothing that arrived was lost, and nothing arrived after the end of the stream. At most one
   buffer full was echoed, nothing unless the connection was served, and something if it was served with bytes
   waiting.
   */
  ghost predicate EchoedIn(x: Conn, x': Conn, served: bool, bufSize: nat) {
    && x'.fd == x.fd && x.arrived <= x'.arrived
    && (x.ended ==> x'.ended && x'.arrived == x.arrived)
    && x.echoed <= x'.echoed && |x'.echoed| <= |x.echoed| + bufSize
    && (!served ==> x'.echoed == x.echoed)
    && (served && x.unread != [] ==> x.echoed < x'.echoed)
  }

  /** The connections behind the client fds of order, in that order. */
  function ConnsOf(order: seq<nat>, serverSocket: nat, owner: map<nat, nat>): seq<nat> {
    if order == [] then []
    else
      var fd := order[|order| - 1];
      ConnsOf(order[..|order| - 1], serverSocket, owner)
      + if fd != serverSocket && fd in owner then [owner[fd]] else []
  }

  /** The members of fds below k, in ascending order. */
  function Ascending(fds: set<nat>, k: nat): seq<nat> {
    if k == 0 then [] else Ascending(fds, k - 1) + if k - 1 in fds then [k - 1] else []
  }

  ghost predicate Sorted(fds: seq<nat>) { forall i, j :: 0 <= i < j < |fds| ==> fds[i] < fds[j] }

  lemma {:induction false} AscendingMembers(fds: set<nat>, k: nat)
    ensures forall fd :: fd in Ascending(fds, k) <==> fd in fds && fd < k
    ensures Sorted(Ascending(fds, k)) && Distinct(Ascending(fds, k))
  {
    if k == 0 {
    } else {
      AscendingMembers(fds, k - 1);
      var init := Ascending(fds, k - 1);
      assert forall i :: 0 <= i < |init| ==> init[i] in init;
    }
  }

  ghost function From(fds: set<nat>, i: nat): set<nat> { set fd | fd in fds && fd >= i }

  ghost function Members(fds: seq<nat>): set<nat> { set fd | fd in fds }

  lemma {:induction false} ConnsOfMembers(order: seq<nat>, serverSocket: nat, owner: map<nat, nat>)
    ensures forall c :: c in ConnsOf(order, serverSocket, owner) <==>
              exists fd :: fd in order && fd != serverSocket && fd in owner && owner[fd] == c
  {
    if order == [] {
    } else {
      var init := order[..|order| - 1];
      ConnsOfMembers(init, serverSocket, owner);
      assert order == init + [order[|order| - 1]];
    }
  }

  /** In the order of the fds. */
  lemma {:induction false} ConnsOfInOrder(order: seq<nat>, serverSocket: nat, owner: map<nat, nat>)
    requires forall fd :: fd in order ==> fd != serverSocket && fd in owner
    ensures |ConnsOf(order, serverSocket, owner)| == |order|
    ensures forall i :: 0 <= i < |order| ==> ConnsOf(order, serverSocket, owner)[i] == owner[order[i]]
  {
    if order == [] {
    } else {
      var init, last := order[..|order| - 1], order[|order| - 1];
      assert last in order && forall fd :: fd in init ==> fd in order;
      ConnsOfInOrder(init, serverSocket, owner);
    }
  }

  ghost predicate Injective(owner: map<nat, nat>) {
    forall f, g :: f in owner && g in owner && f != g ==> owner[f] != owner[g]
  }

  lemma {:induction false} ConnsOfDistinct(order: seq<nat>, serverSocket: nat, owner: map<nat, nat>)
    requires Distinct(order)
    requires Injective(owner)
    ensures Distinct(ConnsOf(order, serverSocket, owner))
  {
    if order == [] {
    } else {
      var init, fd := order[..|order| - 1], order[|order| - 1];
      ConnsOfDistinct(init, serverSocket, owner);
      ConnsOfMembers(init, serverSocket, owner);
      assert forall j :: 0 <= j < |init| ==> init[j] == order[j] != fd;
      if fd != serverSocket && fd in owner {
        assert owner[fd] !in ConnsOf(init, serverSocket, owner);
      }
    }
  }

  /** The interest set, the connection behind each open client fd, and all connections ever accepted. */
  datatype Kernel = Kernel(listener: nat, registered: set<nat>, owner: map<nat, nat>, conns: seq<Conn>) {
    ghost predicate Valid() {
      && registered == owner.Keys + {listener} && listener !in owner
      && (forall fd :: fd in owner ==> owner[fd] < |conns| && conns[owner[fd]].fd == fd)
      && (forall c :: 0 <= c < |conns| ==> conns[c].Conserved())
    }

    /** The kernel may report fd: the listening socket, or a client fd on which read does not block. */
    predicate Reportable(fd: nat)
      requires Valid()
    {
      fd in registered && (fd != listener ==> conns[owner[fd]].Readable())
    }
  }

  // ----- A round in the middle

  /** The fds still to be handled stand for the connections they stood for when the kernel reported them. */
  ghost predicate TodoOk(k0: Kernel, k: Kernel, todo: set<nat>, served: seq<nat>) {
    && k.Valid()
    && forall fd :: fd in todo ==>
         && k.Reportable(fd)
         && (fd != k.listener ==>
               && fd in k0.owner && k.owner[fd] == k0.owner[fd] < |k0.conns| && k0.owner[fd] !in served
               && k0.conns[k0.owner[fd]].Readable())
  }

  /** fd stands for connection c. */
  ghost predicate OpenAs(k: Kernel, fd: nat, c: nat) { fd in k.owner && k.owner[fd] == c }

  /**
   A connection of the beginning was closed exactly if it was served although nothing waited to be read, and
   then it had ended and all was echoed. No connection is open that was closed in the beginning.
   */
  ghost predicate OwnersOk(k0: Kernel, k: Kernel, served: seq<nat>) {
    && |k0.conns| <= |k.conns|
    && (forall fd :: fd in k0.owner && k0.owner[fd] < |k0.conns| ==>
          var c := k0.owner[fd];
          && (OpenAs(k, fd, c) <==> !(c in served && k0.conns[c].unread == []))
          && (!OpenAs(k, fd, c) ==> k.conns[c].ended && k.conns[c].unread == []))
    && forall fd :: fd in k.owner && k.owner[fd] < |k0.conns| ==> OpenAs(k0, fd, k.owner[fd])
  }

  /** A connection that was accepted since is open and nothing of it was read. */
  ghost predicate NewcomersOk(k0: Kernel, k: Kernel) {
    forall c :: |k0.conns| <= c < |k.conns| ==> k.conns[c].echoed == [] && OpenAs(k, k.conns[c].fd, c)
  }

  ghost predicate EchoesOk(k0: Kernel, k: Kernel, served: seq<nat>, bufSize: nat) {
    && |k0.conns| <= |k.conns|
    && forall c :: 0 <= c < |k0.conns| ==>
         && EchoedIn(k0.conns[c], k.conns[c], c in served, bufSize)
         && (c !in served ==> k0.conns[c].unread <= k.conns[c].unread)
         && (c !in served && k0.conns[c].ended ==> k.conns[c] == k0.conns[c])
  }

  ghost predicate AcceptsOk(k0: Kernel, k: Kernel, done: seq<nat>, todo: set<nat>) {
    && k.listener == k0.listener
    && |k.conns| == |k0.conns| + (if k.listener in done then 1 else 0)
    && (k.listener in todo ==> k.listener !in done)
  }

  /** A round that began in k0 has handled done, has read from served, and has todo before it. */
  ghost predicate Underway(k0: Kernel, k: Kernel, done: seq<nat>, todo: set<nat>, served: seq<nat>, bufSize: nat) {
    && TodoOk(k0, k, todo, served) && OwnersOk(k0, k, served) && EchoesOk(k0, k, served, bufSize)
    && NewcomersOk(k0, k)
    && AcceptsOk(k0, k, done, todo) && served == ConnsOf(done, k0.listener, k0.owner)
  }

  /** The clients sent more. */
  ghost predicate Arrived(k: Kernel, k': Kernel) { k' == k.(conns := k'.conns) && Grown(k.conns, k'.conns) }

  /** accept and registration; accept returns an fd that is not open. */
  ghost predicate Accepted(k: Kernel, k': Kernel, fd: nat) {
    && fd !in k.owner && fd != k.listener
    && k' == k.(registered := k.registered + {fd}, owner := k.owner[fd := |k.conns|],
                conns := k.conns + [Conn(fd, [], [], [], false)])
  }

  /** read and echo of n bytes or, at the end of the stream, deregistration and close. */
  ghost predicate Served(k: Kernel, k': Kernel, fd: nat, bufSize: nat)
    requires k.Valid() && fd in k.owner
  {
    var c := k.owner[fd];
    var x := k.conns[c];
    if x.unread == [] then k' == k.(registered := k.registered - {fd}, owner := k.owner - {fd})
    else
      exists n: nat :: 1 <= n <= |x.unread| && n <= bufSize
        && k' == k.(conns := k.conns[c := x.(echoed := x.echoed + x.unread[..n], unread := x.unread[n..])])
  }

  /** Clients may send any bytes, or end their streams, on any connection that has not ended. */
  lemma AnythingMayArrive(k: Kernel, c: nat, bytes: seq<byte>)
    requires k.Valid() && c < |k.conns| && !k.conns[c].ended
    ensures var x := k.conns[c];
            var x' := Conn(x.fd, x.arrived + bytes, x.echoed, x.unread + bytes, bytes == []);
            Arrived(k, k.(conns := k.conns[c := x']))
  {
    var x := k.conns[c];
    assert x.echoed + (x.unread + bytes) == (x.echoed + x.unread) + bytes;
  }

  lemma ArrivedKeeps(k0: Kernel, k: Kernel, k': Kernel, done: seq<nat>, todo: set<nat>, served: seq<nat>, bufSize: nat)
    requires Underway(k0, k, done, todo, served, bufSize) && Arrived(k, k')
    ensures Underway(k0, k', done, todo, served, bufSize)
  {
  }

  lemma AcceptedKeeps(k0: Kernel, k: Kernel, k': Kernel, fd: nat,
                      done: seq<nat>, todo: set<nat>, served: seq<nat>, bufSize: nat)
    requires Underway(k0, k, done, todo, served, bufSize) && Accepted(k, k', fd) && k.listener in todo
    ensures Underway(k0, k', done + [k.listener], todo - {k.listener}, served, bufSize)
  {
    assert (done + [k.listener])[..|done|] == done;
    AcceptedTodo(k0, k, k', fd, todo, served);
    AcceptedOld(k0, k, k', fd, served, bufSize);
  }

  lemma AcceptedValid(k: Kernel, k': Kernel, fd: nat)
    requires k.Valid() && Accepted(k, k', fd)
    ensures k'.Valid()
  {
  }

  lemma AcceptedTodo(k0: Kernel, k: Kernel, k': Kernel, fd: nat, todo: set<nat>, served: seq<nat>)
    requires TodoOk(k0, k, todo, served) && Accepted(k, k', fd)
    ensures TodoOk(k0, k', todo - {k.listener}, served)
  {
  }

  lemma AcceptedOld(k0: Kernel, k: Kernel, k': Kernel, fd: nat, served: seq<nat>, bufSize: nat)
    requires k.Valid() && OwnersOk(k0, k, served) && EchoesOk(k0, k, served, bufSize) && Accepted(k, k', fd)
    ensures OwnersOk(k0, k', served) && EchoesOk(k0, k', served, bufSize)
  {
  }

  lemma ServedKeeps(k0: Kernel, k: Kernel, k': Kernel, fd: nat,
                    done: seq<nat>, todo: set<nat>, served: seq<nat>, bufSize: nat)
    requires k0.Valid() && Underway(k0, k, done, todo, served, bufSize) && fd in todo && fd != k.listener
    requires Served(k, k', fd, bufSize)
    ensures Underway(k0, k', done + [fd], todo - {fd}, served + [k.owner[fd]], bufSize)
  {
    ServedShape(k, k', fd, bufSize);
    ServedTodo(k0, k, k', fd, todo, served);
    ServedOwners(k0, k, k', fd, served, bufSize);
    ServedEchoes(k0, k, k', fd, served, bufSize);
    ServedNewcomers(k0, k, k', fd);
    ServedInOrder(k0, k, k', fd, done, todo, served);
  }

  lemma ServedInOrder(k0: Kernel, k: Kernel, k': Kernel, fd: nat, done: seq<nat>, todo: set<nat>, served: seq<nat>)
    requires AcceptsOk(k0, k, done, todo) && served == ConnsOf(done, k0.listener, k0.owner)
    requires fd in k.owner && OpenAs(k0, fd, k.owner[fd]) && fd != k.listener
    requires |k'.conns| == |k.conns| && k'.listener == k.listener
    ensures AcceptsOk(k0, k', done + [fd], todo - {fd})
    ensures served + [k.owner[fd]] == ConnsOf(done + [fd], k0.listener, k0.owner)
  {
    assert (done + [fd])[..|done|] == done;
  }

  lemma ServedNewcomers(k0: Kernel, k: Kernel, k': Kernel, fd: nat)
    requires k.Valid() && NewcomersOk(k0, k) && |k'.conns| == |k.conns|
    requires fd in k.owner && k.owner[fd] < |k0.conns|
    requires k'.conns == k.conns[k.owner[fd] := k'.conns[k.owner[fd]]]
    requires k'.owner == k.owner || k'.owner == k.owner - {fd}
    ensures NewcomersOk(k0, k')
  {
  }

  /** Serving touches one connection: it echoes a piece, or closes it with nothing left to echo. */
  lemma ServedShape(k: Kernel, k': Kernel, fd: nat, bufSize: nat)
    requires k.Valid() && fd in k.owner && Served(k, k', fd, bufSize)
    ensures |k'.conns| == |k.conns| && k'.listener == k.listener
    ensures var c := k.owner[fd]; var x, x' := k.conns[c], k'.conns[c];
            && k'.conns == k.conns[c := x'] && x'.fd == x.fd && x'.Conserved() && EchoedIn(x, x', true, bufSize)
            && if x.unread == [] then
                 k'.conns == k.conns && k'.owner == k.owner - {fd} && k'.registered == k.registered - {fd}
               else k' == k.(conns := k'.conns)
  {
    var c := k.owner[fd];
    var x := k.conns[c];
    if x.unread != [] {
      var n: nat :| 1 <= n <= |x.unread| && n <= bufSize
                    && k' == k.(conns := k.conns[c := x.(echoed := x.echoed + x.unread[..n], unread := x.unread[n..])]);
      PieceEchoed(x, k'.conns[c], n, bufSize);
    } else {
      assert k.conns == k.conns[c := x];
    }
  }

  lemma ServedValid(k: Kernel, k': Kernel, fd: nat, bufSize: nat)
    requires k.Valid() && fd in k.owner && Served(k, k', fd, bufSize)
    ensures k'.Valid()
  {
    ServedShape(k, k', fd, bufSize);
  }

  lemma PieceEchoed(x: Conn, x': Conn, n: nat, bufSize: nat)
    requires x.Conserved() && 1 <= n <= |x.unread| && n <= bufSize
    requires x' == x.(echoed := x.echoed + x.unread[..n], unread := x.unread[n..])
    ensures x'.Conserved() && EchoedIn(x, x', true, bufSize)
  {
    assert x.unread == x.unread[..n] + x.unread[n..];
  }

  lemma ServedEchoes(k0: Kernel, k: Kernel, k': Kernel, fd: nat, served: seq<nat>, bufSize: nat)
    requires k.Valid() && EchoesOk(k0, k, served, bufSize) && fd in k.owner && k.owner[fd] !in served
    requires |k'.conns| == |k.conns| && k'.conns == k.conns[k.owner[fd] := k'.conns[k.owner[fd]]]
    requires EchoedIn(k.conns[k.owner[fd]], k'.conns[k.owner[fd]], true, bufSize)
    ensures EchoesOk(k0, k', served + [k.owner[fd]], bufSize)
  {
  }

  lemma ServedTodo(k0: Kernel, k: Kernel, k': Kernel, fd: nat, todo: set<nat>, served: seq<nat>)
    requires TodoOk(k0, k, todo, served) && fd in todo && fd != k.listener
    requires |k'.conns| == |k.conns| && k'.listener == k.listener
    requires k'.conns == k.conns[k.owner[fd] := k'.conns[k.owner[fd]]]
    requires k'.conns[k.owner[fd]].Conserved() && k'.conns[k.owner[fd]].fd == fd
    requires k' == k.(conns := k'.conns) || (k'.owner == k.owner - {fd} && k'.registered == k.registered - {fd})
    ensures TodoOk(k0, k', todo - {fd}, served + [k.owner[fd]])
  {
  }

  lemma ServedOwners(k0: Kernel, k: Kernel, k': Kernel, fd: nat, served: seq<nat>, bufSize: nat)
    requires k0.Valid() && k.Valid() && OwnersOk(k0, k, served) && EchoesOk(k0, k, served, bufSize)
    requires fd in k.owner && k.owner[fd] < |k0.conns| && OpenAs(k0, fd, k.owner[fd]) && k.owner[fd] !in served
    requires k.conns[k.owner[fd]].Readable() && k0.conns[k.owner[fd]].Readable()
    requires |k'.conns| == |k.conns| && k'.conns == k.conns[k.owner[fd] := k'.conns[k.owner[fd]]]
    requires if k.conns[k.owner[fd]].unread == [] then k'.owner == k.owner - {fd} && k'.conns == k.conns
             else k'.owner == k.owner
    ensures OwnersOk(k0, k', served + [k.owner[fd]])
  {
    var c := k.owner[fd];
    assert k.conns[c].unread == [] <==> k0.conns[c].unread == [];
    forall f | f in k0.owner && k0.owner[f] < |k0.conns|
      ensures var d := k0.owner[f];
              && (OpenAs(k', f, d) <==> !(d in served + [c] && k0.conns[d].unread == []))
              && (!OpenAs(k', f, d) ==> k'.conns[d].ended && k'.conns[d].unread == [])
    {
      assert OpenAs(k, f, k0.owner[f]) <==> !(k0.owner[f] in served && k0.conns[k0.owner[f]].unread == []);
      assert f != fd ==> k0.owner[f] != c by {
        if k0.owner[f] == c { assert k0.conns[c].fd == f && k0.conns[c].fd == fd; }
      }
    }
  }

  /** What a round promises, for the reported fds in the order in which it handled them. */
  ghost predicate RoundDone(k0: Kernel, k: Kernel, order: seq<nat>, served: seq<nat>, bufSize: nat) {
    && k.Valid() && |k.conns| == |k0.conns| + (if k0.listener in order then 1 else 0)
    && served == ConnsOf(order, k0.listener, k0.owner) && Distinct(served)
    && (forall c :: c in served ==> c < |k0.conns|)
    && OwnersOk(k0, k, served) && NewcomersOk(k0, k)
    && forall c :: 0 <= c < |k0.conns| ==> EchoedIn(k0.conns[c], k.conns[c], c in served, bufSize)
  }

  lemma Beginning(k: Kernel, todo: set<nat>, bufSize: nat)
    requires k.Valid() && forall fd :: fd in todo ==> k.Reportable(fd)
    ensures Underway(k, k, [], todo, [], bufSize)
  {
  }

  lemma Ending(k0: Kernel, k: Kernel, order: seq<nat>, todo: set<nat>, served: seq<nat>, bufSize: nat)
    requires k0.Valid() && Underway(k0, k, order, todo, served, bufSize) && Distinct(order)
    ensures RoundDone(k0, k, order, served, bufSize)
  {
    assert Injective(k0.owner);
    ConnsOfMembers(order, k0.listener, k0.owner);
    ConnsOfDistinct(order, k0.listener, k0.owner);
  }

  // ----- Any number of rounds

  /** No client was cut short: its connection is open, or it ended the stream and everything was echoed. */
  ghost predicate Answered(k: Kernel) {
    forall c :: 0 <= c < |k.conns| ==>
      var x := k.conns[c]; OpenAs(k, x.fd, c) || (x.ended && x.echoed == x.arrived)
  }

  /** Between two rounds of either server, and before the first, clients may send more. */
  ghost predicate LoopStep(bufSize: nat, k: Kernel, k': Kernel) {
    Arrived(k, k') || exists order, served :: RoundDone(k, k', order, served, bufSize)
  }

  ghost predicate IsLoop(bufSize: nat, ks: seq<Kernel>) {
    && |ks| > 0 && ks[0].registered == {ks[0].listener} && ks[0].owner == map[] && ks[0].conns == []
    && forall i :: 0 <= i < |ks| - 1 ==> LoopStep(bufSize, ks[i], ks[i + 1])
  }

  lemma RoundAnswers(k: Kernel, k': Kernel, order: seq<nat>, served: seq<nat>, bufSize: nat)
    requires k.Valid() && Answered(k) && RoundDone(k, k', order, served, bufSize)
    ensures Answered(k')
  {
    forall c | 0 <= c < |k'.conns|
      ensures OpenAs(k', k'.conns[c].fd, c) || (k'.conns[c].ended && k'.conns[c].echoed == k'.conns[c].arrived)
    {
      assert k'.conns[c].Conserved();
      if c < |k.conns| {
        assert EchoedIn(k.conns[c], k'.conns[c], c in served, bufSize);
        assert k.conns[c].Conserved();
      }
    }
  }

  lemma ArrivedAnswers(k: Kernel, k': Kernel)
    requires k.Valid() && Answered(k) && Arrived(k, k')
    ensures k'.Valid() && Answered(k')
  {
  }

  /** In every run of the loops, however long, no client is ever cut short. */
  lemma {:induction false} LoopAnswers(bufSize: nat, ks: seq<Kernel>, i: nat)
    requires IsLoop(bufSize, ks) && i < |ks|
    ensures ks[i].Valid() && Answered(ks[i])
  {
    if i == 0 {
    } else {
      LoopAnswers(bufSize, ks, i - 1);
      assert LoopStep(bufSize, ks[i - 1], ks[i]);
      if Arrived(ks[i - 1], ks[i]) {
        ArrivedAnswers(ks[i - 1], ks[i]);
      } else {
        var order, served :| RoundDone(ks[i - 1], ks[i], order, served, bufSize);
        RoundAnswers(ks[i - 1], ks[i], order, served, bufSize);
      }
    }
  }

  // ----- One fd after the other

  lemma NextFd(fds: set<nat>, i: nat)
    ensures i in fds ==> i in From(fds, i) && From(fds, i + 1) == From(fds, i) - {i}
    ensures i in fds ==> Ascending(fds, i + 1) == Ascending(fds, i) + [i]
    ensures i !in fds ==> From(fds, i + 1) == From(fds, i) && Ascending(fds, i + 1) == Ascending(fds, i)
  {
  }

  lemma NextEvent(events: seq<nat>, i: nat)
    requires i < |events| && Distinct(events)
    ensures events[i] in Members(events[i..]) && events[..i] + [events[i]] == events[..i + 1]
    ensures Members(events[i + 1..]) == Members(events[i..]) - {events[i]}
  {
    assert events[i..] == [events[i]] + events[i + 1..];
    assert events[i] !in events[i + 1..];
  }

  /** Going further than the largest member finds no more. */
  lemma {:induction false} AscendingUpTo(fds: set<nat>, bound: nat, k: nat)
    requires k >= bound && forall fd :: fd in fds ==> fd < bound
    ensures Ascending(fds, k) == Ascending(fds, bound)
    decreases k
  {
    if k == bound {
    } else {
      AscendingUpTo(fds, bound, k - 1);
    }
  }
}
