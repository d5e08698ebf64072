/** The wire protocol of tcp/calc_client.c and tcp/calc_server.c. */
module CalcWire {
  import opened ByteTypes
  import opened CalcFold
  import opened Channels

  const BUF_SIZE := 1024
  const OPSZ := 4

  // ----- One operand in memory, least significant byte first

  /** The value of the same bits as an unsigned int. */
  function Unsigned(x: int32): (u: int)
    ensures 0 <= u < 0x1_0000_0000
  {
    assert Fits(x);
    if x < 0 then x + 0x1_0000_0000 else x
  }

  function Bytes4(x: int32): (b: seq<byte>)
    ensures |b| == OPSZ
    ensures b[0] as int + 0x100 * b[1] as int + 0x1_0000 * b[2] as int + 0x100_0000 * b[3] as int == Unsigned(x)
  {
    var u0 := Unsigned(x);
    var u1 := u0 / 0x100;
    var u2 := u1 / 0x100;
    var u3 := u2 / 0x100;
    assert u1 < 0x100_0000 && u2 < 0x1_0000 && u3 < 0x100;
    [(u0 % 0x100) as byte, (u1 % 0x100) as byte, (u2 % 0x100) as byte, u3 as byte]
  }

  function Int4(b: seq<byte>): int32
    requires |b| == OPSZ
  {
    var u := b[0] as int + 0x100 * b[1] as int + 0x1_0000 * b[2] as int + 0x100_0000 * b[3] as int;
    if u > INT_MAX then u - 0x1_0000_0000 else u
  }

  lemma Int4Bytes4(x: int32)
    ensures Int4(Bytes4(x)) == x
  {
    assert Fits(x);
  }

  // ----- The message

  function Operands(opnds: seq<int32>): (b: seq<byte>)
    ensures |b| == OPSZ * |opnds|
  {
    if opnds == [] then [] else Operands(opnds[..|opnds| - 1]) + Bytes4(opnds[|opnds| - 1])
  }

  lemma {:induction false} OperandAt(opnds: seq<int32>, k: nat)
    requires k < |opnds|
    ensures Operands(opnds)[OPSZ * k..OPSZ * (k + 1)] == Bytes4(opnds[k])
  {
    var last := |opnds| - 1;
    if k == last {
    } else {
      OperandAt(opnds[..last], k);
    }
  }

  /** The count as a char, the operands, the operator. */
  function Message(opnds: seq<int32>, opt: byte): seq<byte> {
    [(|opnds| % 0x100) as byte] + Operands(opnds) + [opt]
  }

  /** Byte by byte: the count, operand k from position 4 * k + 1 on, and the operator at the end. */
  ghost predicate IsRequest(sent: seq<byte>, opnds: seq<int32>, opt: byte) {
    && |sent| == OPSZ * |opnds| + 2 && sent[0] as int == |opnds| && sent[OPSZ * |opnds| + 1] == opt
    && forall k :: 0 <= k < |opnds| ==> sent[OPSZ * k + 1..OPSZ * k + 5] == Bytes4(opnds[k])
  }

  lemma MessageIsRequest(opnds: seq<int32>, opt: byte)
    requires |opnds| <= 255
    ensures IsRequest(Message(opnds, opt), opnds, opt)
  {
    forall k | 0 <= k < |opnds|
      ensures Message(opnds, opt)[OPSZ * k + 1..OPSZ * k + 5] == Bytes4(opnds[k])
    {
      OperandAt(opnds, k);
      SliceInside([(|opnds| % 0x100) as byte], Operands(opnds), [opt], OPSZ * k);
    }
  }

  lemma SliceInside(a: seq<byte>, b: seq<byte>, c: seq<byte>, at: nat)
    requires |a| == 1 && at + OPSZ <= |b|
    ensures (a + b + c)[at + 1..at + 5] == b[at..at + OPSZ]
  {
  }

  /** The first n ints at the start of a buffer. */
  function Ints(b: seq<byte>, n: nat): (xs: seq<int32>)
    requires OPSZ * n <= |b|
    ensures |xs| == n
  {
    if n == 0 then [] else Ints(b, n - 1) + [Int4(b[OPSZ * (n - 1)..OPSZ * n])]
  }

  lemma {:induction false} IntsOfOperands(opnds: seq<int32>, b: seq<byte>)
    requires Operands(opnds) <= b
    ensures Ints(b, |opnds|) == opnds
  {
    if opnds == [] {
    } else {
      var init, last := opnds[..|opnds| - 1], opnds[|opnds| - 1];
      IntsOfOperands(init, b);
      assert b[OPSZ * |init|..OPSZ * |opnds|] == Bytes4(last) by {
        assert Operands(opnds)[OPSZ * |init|..] == Bytes4(last);
      }
      Int4Bytes4(last);
    }
  }

  // ----- The client

  /** scanf of one operand into the buffer. */
  method PutInt(message: array<byte>, at: nat, x: int32)
    requires at + OPSZ <= message.Length
    modifies message
    ensures message[..at + OPSZ] == old(message[..at]) + Bytes4(x)
  {
    var four := Bytes4(x);
    message[at], message[at + 1], message[at + 2], message[at + 3] := four[0], four[1], four[2], four[3];
  }

  /** Lines 33 to 46: the message is laid out in the buffer and its first count * OPSZ + 2 bytes are written. */
  method SendRequest(opnds: seq<int32>, opt: byte, socket: Channel)
    requires |opnds| <= 255
    modifies socket`unread
    ensures socket.unread == old(socket.unread) + Message(opnds, opt)
    ensures IsRequest(socket.unread[|old(socket.unread)|..], opnds, opt)
  {
    var count := |opnds|;
    var message := new byte[BUF_SIZE];
    message[0] := (count % 0x100) as byte;
    for i := 0 to count
      invariant socket.unread == old(socket.unread)
      invariant message[..i * OPSZ + 1] == [(count % 0x100) as byte] + Operands(opnds[..i])
    {
      PutInt(message, i * OPSZ + 1, opnds[i]);
      assert opnds[..i + 1][..i] == opnds[..i];
    }
    message[count * OPSZ + 1] := opt;
    assert opnds[..count] == opnds;
    assert message[..count * OPSZ + 2] == Message(opnds, opt);
    socket.Write(message[..count * OPSZ + 2]);
    MessageIsRequest(opnds, opt);
    assert socket.unread[|old(socket.unread)|..] == Message(opnds, opt);
  }

  // ----- The server

  /** read(clientSocket, &optCount, 1): only the lowest byte of the int changes. */
  function WithLowByte(optCount: int, b: byte): int { optCount - optCount % 0x100 + b as int }

  /** Line 50. */
  method ReadCount(optCount: int, socket: Channel) returns (optCount': int)
    requires 0 <= optCount < 0x100 && socket.unread != []
    modifies socket`unread
    ensures optCount' == old(socket.unread)[0] as int && socket.unread == old(socket.unread)[1..]
  {
    var head := socket.Read(1);
    assert head == [(head + socket.unread)[0]] && socket.unread == (head + socket.unread)[1..];
    optCount' := WithLowByte(optCount, head[0]);
  }

  /**
   Lines 51 to 57. The stream holds just the awaited bytes, in pieces that each fit the cap passed to read:
   the loop gathers them all and never writes past the end of the buffer.
   */
  method Reassemble(optCount: nat, socket: Channel, message: array<byte>) returns (revLen: nat)
    requires |socket.unread| == OPSZ * optCount + 1 <= message.Length
    modifies socket`unread, message
    ensures revLen == OPSZ * optCount + 1 && message[..revLen] == old(socket.unread) && socket.unread == []
  {
    revLen := 0;
    ghost var body := socket.unread;
    while OPSZ * optCount + 1 > revLen
      invariant revLen <= |body| && message[..revLen] + socket.unread == body
      decreases |body| - revLen
    {
      ghost var before := message[..revLen];
      var piece := socket.Read(BUF_SIZE - 1);
      assert before + piece + socket.unread == body;
      forall k | 0 <= k < |piece| {
        message[revLen + k] := piece[k];
      }
      revLen := revLen + |piece|;
      assert message[..revLen] == before + piece;
    }
  }

  /**
   One connection, lines 48 to 60. optCount is what the previous connection left in the variable. However the
   stream is cut into pieces, calc gets the client's operands and operator.
   */
  method ServeConnection(optCount: int, socket: Channel, ghost opnds: seq<int32>, ghost opt: byte)
    returns (optCount': int, received: seq<int32>, operator: byte, res: Outcome)
    requires 0 <= optCount < 0x100 && 1 <= |opnds| <= 255
    requires socket.unread == Message(opnds, opt)
    modifies socket`unread
    ensures optCount' == |opnds| && received == opnds && operator == opt && res == Calc(opnds, opt)
    ensures socket.unread == []
  {
    ghost var body := Operands(opnds) + [opt];
    assert socket.unread == [|opnds| as byte] + body;
    optCount' := ReadCount(optCount, socket);
    var message := new byte[BUF_SIZE];
    var revLen := Reassemble(optCount', socket, message);
    assert Operands(opnds) <= message[..] by { assert message[..][..revLen] == body; }
    IntsOfOperands(opnds, message[..]);
    received := Ints(message[..], optCount');
    operator := message[revLen - 1];
    res := CalcLoop(received, operator);
  }

  // ----- The result

  lemma Bytes4Int4(b: seq<byte>)
    requires |b| == OPSZ
    ensures Bytes4(Int4(b)) == b
  {
    BytesUnique(Bytes4(Int4(b)), b);
  }

  /** Four bytes are determined by the number that they make up. */
  lemma BytesUnique(b: seq<byte>, c: seq<byte>)
    requires |b| == |c| == OPSZ
    requires b[0] as int + 0x100 * b[1] as int + 0x1_0000 * b[2] as int + 0x100_0000 * b[3] as int ==
             c[0] as int + 0x100 * c[1] as int + 0x1_0000 * c[2] as int + 0x100_0000 * c[3] as int
    ensures b == c
  {
    Digit(b[0], c[0], b[1] as int + 0x100 * b[2] as int + 0x1_0000 * b[3] as int,
          c[1] as int + 0x100 * c[2] as int + 0x1_0000 * c[3] as int);
    Digit(b[1], c[1], b[2] as int + 0x100 * b[3] as int, c[2] as int + 0x100 * c[3] as int);
    Digit(b[2], c[2], b[3] as int, c[3] as int);
    assert forall k :: 0 <= k < OPSZ ==> b[k] == c[k];
  }

  lemma Digit(x: byte, y: byte, q: int, r: int)
    requires x as int + 0x100 * q == y as int + 0x100 * r
    ensures x == y && q == r
  {
  }

  /** read(clientSocket, &res, sizeof(res)): only the bytes that came change what was in the memory of res. */
  function Overwritten(memory: int32, got: seq<byte>): int32
    requires |got| <= OPSZ
  {
    Int4(got + Bytes4(memory)[|got|..])
  }

  /** The client ends with the number sent exactly if the bytes that did not come were in the memory already. */
  lemma PartOfResult(res: int32, memory: int32, n: nat)
    requires n <= OPSZ
    ensures Overwritten(memory, Bytes4(res)[..n]) == res <==> Bytes4(memory)[n..] == Bytes4(res)[n..]
  {
    var b := Bytes4(res)[..n] + Bytes4(memory)[n..];
    assert Bytes4(res) == Bytes4(res)[..n] + Bytes4(res)[n..];
    Bytes4Int4(b);
    Int4Bytes4(res);
    if Int4(b) == res { assert Bytes4(memory)[n..] == b[n..]; }
  }

  /** Whatever the memory of res held before, the client ends with the number sent exactly if all bytes came. */
  lemma WholeResult(res: int32, n: nat)
    requires n <= OPSZ
    ensures (forall memory: int32 :: Overwritten(memory, Bytes4(res)[..n]) == res) <==> n == OPSZ
  {
    forall memory: int32
      ensures Overwritten(memory, Bytes4(res)[..n]) == res <==> Bytes4(memory)[n..] == Bytes4(res)[n..]
    {
      PartOfResult(res, memory, n);
    }
    if n < OPSZ {
      var b := Bytes4(res);
      var other := b[3 := if b[3] == 0 then 1 else 0];
      Bytes4Int4(other);
      assert Bytes4(Int4(other))[n..][3 - n] != b[n..][3 - n];
      assert Overwritten(Int4(other), Bytes4(res)[..n]) != res;
    }
  }

  /** Line 48: one read, which may get fewer bytes than the number has, or none if the server closed or exited. */
  method ReadResult(socket: Channel, memory: int32) returns (res: int32, got: nat)
    requires |socket.unread| <= OPSZ && (socket.unread != [] || socket.ended)
    modifies socket`unread
    ensures got <= |old(socket.unread)| && (got == 0 <==> old(socket.unread) == [])
    ensures res == Overwritten(memory, old(socket.unread)[..got])
  {
    var piece := socket.Read(OPSZ);
    res, got := Overwritten(memory, piece), |piece|;
    assert piece == (piece + socket.unread)[..got];
  }

  /**
   Client and server together, over fresh streams in both directions; memory is what the client's res holds
   before. The server answers with the fold of what the user typed in. The client's read gets at least a byte
   of a number, and shows that number if and only if the bytes missing are those it already had. If the server
   exited it shows its memory. Nothing is said about what it shows after undefined behaviour.
   */
  method Exchange(opnds: seq<int32>, opt: byte, optCount: int, memory: int32)
    returns (res: Outcome, shown: int32, got: nat)
    requires 1 <= |opnds| <= 255 && 0 <= optCount < 0x100
    ensures res == Calc(opnds, opt) && got <= OPSZ
    ensures res.Value? ==> got > 0 && (shown == res.v <==> Bytes4(memory)[got..] == Bytes4(res.v)[got..])
    ensures res.Exit? ==> got == 0 && shown == memory
  {
    var request := new Channel([], false);
    var answer := new Channel([], false);
    SendRequest(opnds, opt, request);
    var _, _, _, r := ServeConnection(optCount, request, opnds, opt);
    res := r;
    if res.Undefined? {
      var any: int32 := *;
      return res, any, 0;
    }
    if res.Value? { answer.Write(Bytes4(res.v)); }
    answer.ended := true;
    shown, got := ReadResult(answer, memory);
    if res.Value? {
      PartOfResult(res.v, memory, got);
    } else {
      assert [] + Bytes4(memory)[0..] == Bytes4(memory);
      Int4Bytes4(memory);
    }
  }

  datatype Request = Request(opnds: seq<int32>, opt: byte)

  /** Number k is answered by calc's result for its operands, which is what arithmetic gives whenever it is a number. */
  ghost predicate AnsweredAt(requests: seq<Request>, answers: seq<Outcome>, k: nat)
    requires k < |requests| && k < |answers| && requests[k].opnds != []
  {
    && answers[k] == Calc(requests[k].opnds, requests[k].opt)
    && (answers[k].Value? ==> IsResult(requests[k].opnds, requests[k].opt, answers[k].v))
  }

  /** One answer for each request, up to the first that calc does not answer with a number: it ends the server. */
  ghost predicate Answered(requests: seq<Request>, answers: seq<Outcome>)
    requires forall k :: 0 <= k < |requests| ==> requests[k].opnds != []
  {
    && |answers| <= |requests|
    && (forall k :: 0 <= k < |answers| ==> AnsweredAt(requests, answers, k))
    && (forall k :: 0 <= k < |answers| - 1 ==> answers[k].Value?)
    && (|answers| < |requests| ==> answers != [] && !answers[|answers| - 1].Value?)
  }

  /** From number from on, each client has sent its request. */
  ghost predicate Sent(sockets: seq<Channel>, requests: seq<Request>, from: nat)
    reads sockets
  {
    && |sockets| == |requests|
    && forall i :: from <= i < |sockets| ==> sockets[i].unread == Message(requests[i].opnds, requests[i].opt)
  }

  /** Connection number i. */
  method ServeNumber(i: nat, optCount: int, sockets: seq<Channel>, ghost requests: seq<Request>)
    returns (optCount': int, res: Outcome)
    requires i < |sockets| && Sent(sockets, requests, i) && 1 <= |requests[i].opnds| <= 255
    requires 0 <= optCount < 0x100 && forall k :: i < k < |sockets| ==> sockets[k] != sockets[i]
    modifies sockets[i]
    ensures Sent(sockets, requests, i + 1) && 0 <= optCount' < 0x100
    ensures res == Calc(requests[i].opnds, requests[i].opt)
    ensures res.Value? ==> IsResult(requests[i].opnds, requests[i].opt, res.v)
  {
    var received, operator;
    optCount', received, operator, res := ServeConnection(optCount, sockets[i], requests[i].opnds, requests[i].opt);
    if res.Value? { CalcClosedForm(requests[i].opnds, requests[i].opt); }
  }

  /** The loop over connections: the variable that holds the count survives from one to the next. */
  method ServeAll(sockets: seq<Channel>, ghost requests: seq<Request>) returns (answers: seq<Outcome>)
    requires forall i, j :: 0 <= i < j < |sockets| ==> sockets[i] != sockets[j]
    requires forall i :: 0 <= i < |requests| ==> 1 <= |requests[i].opnds| <= 255
    requires Sent(sockets, requests, 0)
    modifies sockets
    ensures Answered(requests, answers)
  {
    var optCount := 0;
    answers := [];
    for i := 0 to |sockets|
      invariant 0 <= optCount < 0x100
      invariant Sent(sockets, requests, i)
      invariant |answers| == i && forall k :: 0 <= k < i ==> AnsweredAt(requests, answers, k) && answers[k].Value?
    {
      var res;
      optCount, res := ServeNumber(i, optCount, sockets, requests);
      ghost var before := answers;
      answers := answers + [res];
      assert forall k :: 0 <= k < i ==> AnsweredAt(requests, before, k) && answers[k] == before[k];
      if !res.Value? { return; }
    }
  }
}
