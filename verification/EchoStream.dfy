/**
 tcp/echo_client.c talking to tcp/echo_server.c over one connection: the two processes and the two
 directions of the stream, each step one system call. Assumptions: the server's writes are whole, the
 client's may be short, no call fails.
 */
module EchoStream {
  import opened ByteTypes
  import opened Channels
  import opened Sequences

  datatype Exchange = Exchange(written: seq<byte>, received: seq<byte>)

  /**
   waiting: the client is in its inner loop, with written and received of the present message. held is what
   the server has read and not yet echoed. past lists the finished exchanges.
   */
  datatype Echo = Echo(waiting: bool, written: seq<byte>, received: seq<byte>, toServer: seq<byte>,
                       held: seq<byte>, toClient: seq<byte>, past: seq<Exchange>)

  const INITIAL := Echo(false, [], [], [], [], [], [])

  // ----- The steps, for a buffer of size bytes

  /** fgets leaves room for the terminator; write takes n of the bytes. */
  ghost predicate ClientWrite(size: nat, s: Echo, s': Echo) {
    && !s.waiting
    && exists text: seq<byte>, n: nat :: |text| < size && n <= |text| && (n == 0 ==> text == [])
         && s' == s.(waiting := true, written := text[..n], received := [], toServer := s.toServer + text[..n])
  }

  ghost predicate ClientRead(size: nat, s: Echo, s': Echo) {
    && s.waiting && |s.received| < |s.written|
    && exists n: nat :: 1 <= n <= |s.toClient| && n <= size - 1
         && s' == s.(received := s.received + s.toClient[..n], toClient := s.toClient[n..])
  }

  ghost predicate ClientDone(s: Echo, s': Echo) {
    && s.waiting && |s.received| >= |s.written|
    && s' == s.(waiting := false, past := s.past + [Exchange(s.written, s.received)])
  }

  ghost predicate ServerRead(size: nat, s: Echo, s': Echo) {
    && s.held == []
    && exists n: nat :: 1 <= n <= |s.toServer| && n <= size
         && s' == s.(held := s.toServer[..n], toServer := s.toServer[n..])
  }

  ghost predicate ServerWrite(s: Echo, s': Echo) {
    s.held != [] && s' == s.(held := [], toClient := s.toClient + s.held)
  }

  ghost predicate Inner(size: nat, s: Echo, s': Echo) {
    ClientRead(size, s, s') || ClientDone(s, s') || ServerRead(size, s, s') || ServerWrite(s, s')
  }

  ghost predicate Next(size: nat, s: Echo, s': Echo) {
    ClientWrite(size, s, s') || Inner(size, s, s')
  }

  ghost predicate IsRun(size: nat, run: seq<Echo>) {
    && size >= 2 && |run| > 0 && run[0] == INITIAL
    && forall k :: 0 <= k < |run| - 1 ==> Next(size, run[k], run[k + 1])
  }

  // ----- The invariant

  /** The bytes under way, oldest first. */
  function InFlight(s: Echo): seq<byte> { s.toClient + s.held + s.toServer }

  ghost predicate Inv(size: nat, s: Echo) {
    && (if s.waiting then s.received + InFlight(s) == s.written && |s.written| < size else InFlight(s) == [])
    && forall e :: e in s.past ==> e.received == e.written
  }

  lemma ClientReadKeepsInv(size: nat, s: Echo, s': Echo)
    requires Inv(size, s) && ClientRead(size, s, s')
    ensures Inv(size, s')
  {
    var n: nat :| 1 <= n <= |s.toClient| && n <= size - 1
                  && s' == s.(received := s.received + s.toClient[..n], toClient := s.toClient[n..]);
    MovePiece(s.received, s.toClient, n);
    var behind := s.held + s.toServer;
    assert InFlight(s) == s.toClient + behind && InFlight(s') == s'.toClient + behind;
    assert s'.received + InFlight(s') == (s'.received + s'.toClient) + behind;
    assert s.received + InFlight(s) == (s.received + s.toClient) + behind;
  }

  lemma ClientKeepsInv(size: nat, s: Echo, s': Echo)
    requires Inv(size, s) && (ClientWrite(size, s, s') || ClientDone(s, s'))
    ensures Inv(size, s')
  {
    if ClientDone(s, s') { assert s.written[|s.received|..] == InFlight(s); }
  }

  lemma ServerKeepsInv(size: nat, s: Echo, s': Echo)
    requires Inv(size, s) && (ServerRead(size, s, s') || ServerWrite(s, s'))
    ensures Inv(size, s')
  {
    if ServerRead(size, s, s') {
      var n: nat :| 1 <= n <= |s.toServer| && n <= size
                    && s' == s.(held := s.toServer[..n], toServer := s.toServer[n..]);
      MovePiece(s.toClient + s.held, s.toServer, n);
    }
    assert InFlight(s') == InFlight(s);
  }

  lemma {:induction false} RunInv(size: nat, run: seq<Echo>, k: nat)
    requires IsRun(size, run) && k < |run|
    ensures Inv(size, run[k])
  {
    if k == 0 {
    } else {
      RunInv(size, run, k - 1);
      var s, s' := run[k - 1], run[k];
      assert Next(size, s, s');
      if ServerRead(size, s, s') || ServerWrite(s, s') {
        ServerKeepsInv(size, s, s');
      } else if ClientRead(size, s, s') {
        ClientReadKeepsInv(size, s, s');
      } else {
        ClientKeepsInv(size, s, s');
      }
    }
  }

  // ----- The theorems

  /**
   At every moment of an exchange, what the client has received, then what is under way on either side of
   the server and in its buffer, is what the client wrote; nothing is left of earlier messages.
   */
  lemma NothingLost(size: nat, run: seq<Echo>, k: nat)
    requires IsRun(size, run) && k < |run|
    ensures run[k].waiting ==> run[k].received + run[k].toClient + run[k].held + run[k].toServer == run[k].written
    ensures run[k].waiting ==> |run[k].received| < size
    ensures !run[k].waiting ==> run[k].toClient == run[k].held == run[k].toServer == []
  {
    RunInv(size, run, k);
    var s := run[k];
    if s.waiting {
      assert s.received + InFlight(s) == s.received + s.toClient + s.held + s.toServer;
    } else {
      assert |InFlight(s)| == |s.toClient| + |s.held| + |s.toServer|;
    }
  }

  /** Every exchange that the client leaves has brought back exactly what it wrote. */
  lemma ExchangesEcho(size: nat, run: seq<Echo>, k: nat, j: nat)
    requires IsRun(size, run) && k < |run| && j < |run[k].past|
    ensures run[k].past[j].received == run[k].past[j].written
  {
    RunInv(size, run, k);
    assert run[k].past[j] in run[k].past;
  }

  /** How much there is still to do before the exchange ends. */
  function Work(s: Echo): nat {
    3 * |s.toServer| + 2 * |s.held| + |s.toClient| + if s.waiting then 1 else 0
  }

  /** Every step but the start of an exchange reduces the work, and while there is some a step is possible. */
  lemma ExchangeEnds(size: nat, run: seq<Echo>, k: nat)
    requires IsRun(size, run) && k < |run|
    ensures forall s' :: Inner(size, run[k], s') ==> Work(s') < Work(run[k])
    ensures run[k].waiting ==> exists s' :: Inner(size, run[k], s')
  {
    RunInv(size, run, k);
    var s := run[k];
    if s.waiting {
      if |s.received| >= |s.written| {
        assert Inner(size, s, s.(waiting := false, past := s.past + [Exchange(s.written, s.received)]));
      } else if s.toClient != [] {
        var s' := s.(received := s.received + s.toClient[..1], toClient := s.toClient[1..]);
        assert ClientRead(size, s, s');
        assert Inner(size, s, s');
      } else if s.held != [] {
        assert Inner(size, s, s.(held := [], toClient := s.toClient + s.held));
      } else {
        assert InFlight(s) == s.toServer;
        var s' := s.(held := s.toServer[..1], toServer := s.toServer[1..]);
        assert ServerRead(size, s, s');
        assert Inner(size, s, s');
      }
    }
  }

  ghost predicate Reachable(size: nat, s: Echo) { exists run: seq<Echo> :: IsRun(size, run) && run[|run| - 1] == s }

  lemma Extend(size: nat, s: Echo, s': Echo)
    requires Reachable(size, s) && Next(size, s, s')
    ensures Reachable(size, s')
  {
    var run: seq<Echo> :| IsRun(size, run) && run[|run| - 1] == s;
    var longer := run + [s'];
    assert IsRun(size, longer) && longer[|longer| - 1] == s';
  }

  /** The exchange of one message, of which the server reads, and the client gets back, the whole at once. */
  lemma OneExchange(size: nat, s: Echo, text: seq<byte>) returns (s': Echo)
    requires Reachable(size, s) && !s.waiting && InFlight(s) == [] && |text| < size
    ensures Reachable(size, s') && !s'.waiting && InFlight(s') == [] && s'.past == s.past + [Exchange(text, text)]
  {
    assert |InFlight(s)| == |s.toClient| + |s.held| + |s.toServer|;
    assert text[..|text|] == text && text[|text|..] == [];
    var s1 := Echo(true, text, [], text, [], [], s.past);
    assert ClientWrite(size, s, s1) by { assert s1 == s.(waiting := true, written := text[..|text|], received := [],
                                                         toServer := s.toServer + text[..|text|]); }
    Extend(size, s, s1);
    var s4 := if text == [] then s1 else s1.(received := text, toServer := []);
    if text != [] {
      var s2 := s1.(held := text[..|text|], toServer := text[|text|..]);
      assert ServerRead(size, s1, s2);
      Extend(size, s1, s2);
      var s3 := s2.(held := [], toClient := s2.toClient + s2.held);
      assert ServerWrite(s2, s3);
      Extend(size, s2, s3);
      assert s3.toClient == text;
      assert ClientRead(size, s3, s4) by {
        assert s4 == s3.(received := s3.received + s3.toClient[..|text|], toClient := s3.toClient[|text|..]);
      }
      Extend(size, s3, s4);
    }
    s' := s4.(waiting := false, past := s.past + [Exchange(text, text)]);
    assert ClientDone(s4, s');
    Extend(size, s4, s');
  }

  /** Whatever the user types in, line after line, there is a run that sends it and gets it back. */
  lemma {:induction false} EveryTextIsEchoed(size: nat, texts: seq<seq<byte>>) returns (s: Echo)
    requires size >= 2 && forall i :: 0 <= i < |texts| ==> |texts[i]| < size
    ensures Reachable(size, s) && !s.waiting && InFlight(s) == [] && |s.past| == |texts|
    ensures forall i :: 0 <= i < |texts| ==> s.past[i] == Exchange(texts[i], texts[i])
  {
    if texts == [] {
      s := INITIAL;
      assert IsRun(size, [s]) && [s][|[s]| - 1] == s;
    } else {
      var last := |texts| - 1;
      var before := EveryTextIsEchoed(size, texts[..last]);
      s := OneExchange(size, before, texts[last]);
      assert forall i :: 0 <= i < last ==> texts[..last][i] == texts[i];
    }
  }

  // ----- The loops as they are written

  /**
   Lines 39 to 44 of the client, where the stream will bring back the writeLen bytes at the start of the
   buffer: the loop overwrites them in place, never runs past the buffer, and ends with the same bytes.
   */
  method ReadEcho(message: array<byte>, writeLen: nat, socket: Channel) returns (readLen: nat)
    requires writeLen < message.Length && socket.unread == message[..writeLen]
    modifies message, socket`unread
    ensures readLen == writeLen && socket.unread == []
    ensures message[..readLen] == old(message[..writeLen]) && message[readLen] == 0
  {
    ghost var text := message[..writeLen];
    readLen := 0;
    while readLen < writeLen
      invariant readLen <= writeLen && message[..readLen] + socket.unread == text
      decreases writeLen - readLen
    {
      ghost var before := message[..readLen];
      var piece := socket.Read(message.Length - 1);
      assert before + piece + socket.unread == text;
      forall k | 0 <= k < |piece| {
        message[readLen + k] := piece[k];
      }
      readLen := readLen + |piece|;
      assert message[..readLen] == before + piece;
    }
    message[readLen] := 0;
  }

  /** Lines 47 to 49 of the server: it echoes the whole stream, whatever the pieces. */
  method EchoAll(size: nat, from: Channel, to: Channel)
    requires size > 0 && from != to && from.ended
    modifies from`unread, to`unread
    ensures to.unread == old(to.unread) + old(from.unread) && from.unread == []
  {
    var piece := from.Read(size);
    while piece != []
      invariant to.unread + piece + from.unread == old(to.unread) + old(from.unread)
      invariant piece == [] ==> from.unread == []
      decreases |piece| + |from.unread|
    {
      ghost var rest := from.unread;
      to.Write(piece);
      piece := from.Read(size);
      assert piece + from.unread == rest;
    }
  }
}
