/**
 close/file_server.c sending a file to close/file_client.c, half-closing the connection and waiting for the
 reply. Each step is one system call; chunk and cap are the buffer sizes of server and client.
 Assumptions: writes are whole, no call fails, the file does not change.
 */
module FileTransfer {
  import opened ByteTypes
  import opened Channels
  import opened Sequences

  datatype ServerPc = Sending | HalfClosing | AwaitingReply | Finished
  datatype ClientPc = Receiving | Replying | Closed

  /** rest is the unsent part of the file, got what the client has stored, ended the half-close as it travels. */
  datatype Transfer = Transfer(server: ServerPc, rest: seq<byte>, toClient: seq<byte>, ended: bool,
                               client: ClientPc, got: seq<byte>, toServer: seq<byte>, reply: seq<byte>)

  /** The seven bytes of "got it" with its terminator. */
  const REPLY: seq<byte> := [103, 111, 116, 32, 105, 116, 0]

  function Initial(file: seq<byte>): Transfer { Transfer(Sending, file, [], false, Receiving, [], [], []) }

  // ----- The steps

  /** Lines 34 to 39 of the server: a short chunk, which may be empty, is the last. */
  ghost predicate SendChunk(chunk: nat, s: Transfer, s': Transfer) {
    && s.server.Sending?
    && s' == if |s.rest| < chunk then s.(toClient := s.toClient + s.rest, rest := [], server := HalfClosing)
             else s.(toClient := s.toClient + s.rest[..chunk], rest := s.rest[chunk..])
  }

  ghost predicate ShutDown(s: Transfer, s': Transfer) {
    s.server.HalfClosing? && s' == s.(ended := true, server := AwaitingReply)
  }

  ghost predicate Receive(cap: nat, s: Transfer, s': Transfer) {
    && s.client.Receiving?
    && exists n: nat :: 1 <= n <= |s.toClient| && n <= cap
         && s' == s.(got := s.got + s.toClient[..n], toClient := s.toClient[n..])
  }

  ghost predicate SeeEnd(s: Transfer, s': Transfer) {
    s.client.Receiving? && s.toClient == [] && s.ended && s' == s.(client := Replying)
  }

  ghost predicate Answer(s: Transfer, s': Transfer) {
    s.client.Replying? && s' == s.(toServer := s.toServer + REPLY, client := Closed)
  }

  ghost predicate GetReply(chunk: nat, s: Transfer, s': Transfer) {
    && s.server.AwaitingReply?
    && exists n: nat :: 1 <= n <= |s.toServer| && n <= chunk
         && s' == s.(reply := s.toServer[..n], toServer := s.toServer[n..], server := Finished)
  }

  ghost predicate Next(chunk: nat, cap: nat, s: Transfer, s': Transfer) {
    || SendChunk(chunk, s, s') || ShutDown(s, s') || GetReply(chunk, s, s')
    || Receive(cap, s, s') || SeeEnd(s, s') || Answer(s, s')
  }

  ghost predicate IsRun(chunk: nat, cap: nat, file: seq<byte>, run: seq<Transfer>) {
    && chunk > 0 && cap > 0 && |run| > 0 && run[0] == Initial(file)
    && forall k :: 0 <= k < |run| - 1 ==> Next(chunk, cap, run[k], run[k + 1])
  }

  // ----- The invariant

  ghost predicate Inv(file: seq<byte>, s: Transfer) {
    && s.got + s.toClient + s.rest == file
    && (!s.server.Sending? ==> s.rest == [])
    && (s.ended <==> s.server.AwaitingReply? || s.server.Finished?)
    && (!s.client.Receiving? ==> s.ended && s.toClient == [])
    && (s.server.Finished? ==> s.client.Closed? && s.reply != [])
    && s.reply + s.toServer == (if s.client.Closed? then REPLY else [])
    && (s.reply != [] ==> s.server.Finished?)
  }

  lemma SendChunkKeepsInv(chunk: nat, file: seq<byte>, s: Transfer, s': Transfer)
    requires Inv(file, s) && SendChunk(chunk, s, s')
    ensures Inv(file, s')
  {
    var n := if |s.rest| < chunk then |s.rest| else chunk;
    MovePiece(s.got + s.toClient, s.rest, n);
    assert s'.got + s'.toClient == (s.got + s.toClient) + s.rest[..n];
  }

  lemma ReceiveKeepsInv(cap: nat, file: seq<byte>, s: Transfer, s': Transfer)
    requires Inv(file, s) && Receive(cap, s, s')
    ensures Inv(file, s')
  {
    var n: nat :| 1 <= n <= |s.toClient| && n <= cap
                  && s' == s.(got := s.got + s.toClient[..n], toClient := s.toClient[n..]);
    MovePiece(s.got, s.toClient, n);
  }

  lemma GetReplyKeepsInv(chunk: nat, file: seq<byte>, s: Transfer, s': Transfer)
    requires Inv(file, s) && GetReply(chunk, s, s')
    ensures Inv(file, s')
  {
    var n: nat :| 1 <= n <= |s.toServer| && n <= chunk
                  && s' == s.(reply := s.toServer[..n], toServer := s.toServer[n..], server := Finished);
    MovePiece(s.reply, s.toServer, n);
    assert s.reply == [] && s.reply + s.toServer[..n] == s'.reply;
  }

  lemma {:induction false} RunInv(chunk: nat, cap: nat, file: seq<byte>, run: seq<Transfer>, k: nat)
    requires IsRun(chunk, cap, file, run) && k < |run|
    ensures Inv(file, run[k])
  {
    if k == 0 {
    } else {
      RunInv(chunk, cap, file, run, k - 1);
      var s, s' := run[k - 1], run[k];
      assert Next(chunk, cap, s, s');
      if SendChunk(chunk, s, s') {
        SendChunkKeepsInv(chunk, file, s, s');
      } else if Receive(cap, s, s') {
        ReceiveKeepsInv(cap, file, s, s');
      } else if GetReply(chunk, s, s') {
        GetReplyKeepsInv(chunk, file, s, s');
      }
    }
  }

  // ----- The theorems

  /** When the client has seen the end of the stream its copy is the file, whatever the file's length. */
  lemma CopyIsFile(chunk: nat, cap: nat, file: seq<byte>, run: seq<Transfer>, k: nat)
    requires IsRun(chunk, cap, file, run) && k < |run|
    ensures run[k].got <= file
    ensures !run[k].client.Receiving? ==> run[k].got == file
  {
    RunInv(chunk, cap, file, run, k);
  }

  ghost predicate Over(s: Transfer) { s.server.Finished? && s.client.Closed? }

  /** No deadlock: as long as one side has not finished, some step is possible. */
  lemma NeverStuck(chunk: nat, cap: nat, file: seq<byte>, run: seq<Transfer>, k: nat)
    requires IsRun(chunk, cap, file, run) && k < |run|
    ensures Over(run[k]) <==> !exists s' :: Next(chunk, cap, run[k], s')
    ensures Over(run[k]) ==> run[k].got == file && [] < run[k].reply <= REPLY
  {
    RunInv(chunk, cap, file, run, k);
    var s := run[k];
    if s.server.Sending? {
      var s' := if |s.rest| < chunk then s.(toClient := s.toClient + s.rest, rest := [], server := HalfClosing)
                else s.(toClient := s.toClient + s.rest[..chunk], rest := s.rest[chunk..]);
      assert Next(chunk, cap, s, s');
    } else if s.server.HalfClosing? {
      assert Next(chunk, cap, s, s.(ended := true, server := AwaitingReply));
    } else if s.client.Receiving? && s.toClient != [] {
      var s' := s.(got := s.got + s.toClient[..1], toClient := s.toClient[1..]);
      assert Receive(cap, s, s');
      assert Next(chunk, cap, s, s');
    } else if s.client.Receiving? {
      assert Next(chunk, cap, s, s.(client := Replying));
    } else if s.client.Replying? {
      assert Next(chunk, cap, s, s.(toServer := s.toServer + REPLY, client := Closed));
    } else if s.server.AwaitingReply? {
      var s' := s.(reply := s.toServer[..1], toServer := s.toServer[1..], server := Finished);
      assert GetReply(chunk, s, s');
      assert Next(chunk, cap, s, s');
    }
  }

  /** What is left to do. */
  function Work(s: Transfer): nat {
    2 * |s.rest| + |s.toClient|
    + (match s.server case Sending => 3 case HalfClosing => 2 case AwaitingReply => 1 case Finished => 0)
    + (match s.client case Receiving => 2 case Replying => 1 case Closed => 0)
  }

  /** Every step reduces the work, so every run ends, and by NeverStuck it can only end with the handshake done. */
  lemma EveryStepCounts(chunk: nat, cap: nat, s: Transfer, s': Transfer)
    requires chunk > 0 && Next(chunk, cap, s, s')
    ensures Work(s') < Work(s)
  {
  }

  /** So no run has more than 2 * |file| + 6 states. */
  lemma {:induction false} RunsAreShort(chunk: nat, cap: nat, file: seq<byte>, run: seq<Transfer>, k: nat)
    requires IsRun(chunk, cap, file, run) && k < |run|
    ensures k + Work(run[k]) <= 2 * |file| + 5
  {
    if k == 0 {
    } else {
      RunsAreShort(chunk, cap, file, run, k - 1);
      EveryStepCounts(chunk, cap, run[k - 1], run[k]);
    }
  }

  /** The server has written: its file got shorter, or it is done with it. */
  ghost predicate Wrote(s: Transfer, s': Transfer) {
    s.server.Sending? && (s'.rest != s.rest || !s'.server.Sending?)
  }

  /** How many writes the server has made up to run[k]. */
  ghost function Writes(run: seq<Transfer>, k: nat): nat
    requires k < |run|
  {
    if k == 0 then 0 else Writes(run, k - 1) + if Wrote(run[k - 1], run[k]) then 1 else 0
  }

  lemma StepWrites(chunk: nat, cap: nat, s: Transfer, s': Transfer)
    requires chunk > 0 && Next(chunk, cap, s, s')
    ensures s'.server.Sending? ==> s.server.Sending?
    ensures Wrote(s, s') ==> if s'.server.Sending? then |s.rest| == |s'.rest| + chunk else |s.rest| < chunk
    ensures !Wrote(s, s') && s.server.Sending? ==> s'.rest == s.rest && s'.server.Sending?
  {
  }

  /**
   In every run the server sends chunk by chunk: w writes have taken w full chunks off the file while it is
   still sending, and it is done after exactly |file| / chunk + 1 writes, the last of less than a chunk.
   */
  lemma {:induction false} ChunkByChunk(chunk: nat, cap: nat, file: seq<byte>, run: seq<Transfer>, k: nat)
    requires IsRun(chunk, cap, file, run) && k < |run|
    ensures run[k].server.Sending? ==> |run[k].rest| + chunk * Writes(run, k) == |file|
    ensures !run[k].server.Sending? ==> Writes(run, k) == |file| / chunk + 1
  {
    if k == 0 {
      assert chunk * 0 == 0;
    } else {
      ChunkByChunk(chunk, cap, file, run, k - 1);
      var s, s' := run[k - 1], run[k];
      assert Next(chunk, cap, s, s');
      StepWrites(chunk, cap, s, s');
      var w := Writes(run, k - 1);
      MulStep(chunk, w);
      if Wrote(s, s') && !s'.server.Sending? { WholeChunks(|file|, chunk, w, |s.rest|); }
    }
  }

  lemma WholeChunks(n: nat, chunk: nat, w: nat, rest: nat)
    requires chunk > 0 && rest < chunk && rest + chunk * w == n
    ensures n / chunk == w
  {
    var q := n / chunk;
    assert chunk * q <= n < chunk * q + chunk;
    MulStep(chunk, q);
    MulStep(chunk, w);
    if q < w { MulMono(chunk, q + 1, w); } else if w < q { MulMono(chunk, w + 1, q); }
  }

  // ----- The loops as they are written

  /** Lines 33 to 43 of the server; writes lists its writes. A file of whole chunks ends with an empty write. */
  method SendFile(file: seq<byte>, chunk: nat, socket: Channel) returns (writes: seq<Chunk>)
    requires chunk > 0 && !socket.ended
    modifies socket
    ensures socket.unread == old(socket.unread) + file && socket.ended
    ensures Concat(writes) == file && writes != []
    ensures forall i :: 0 <= i < |writes| ==> if i < |writes| - 1 then |writes[i]| == chunk else |writes[i]| < chunk
  {
    writes := [];
    var at := 0;
    while true
      invariant 0 <= at <= |file|
      invariant Concat(writes) == file[..at] && socket.unread == old(socket.unread) + file[..at]
      invariant forall i :: 0 <= i < |writes| ==> |writes[i]| == chunk
      decreases |file| - at
    {
      var readLen := if |file| - at < chunk then |file| - at else chunk;
      var message := file[at..at + readLen];
      socket.Write(message);
      assert (writes + [message])[..|writes|] == writes;
      assert file[..at + readLen] == file[..at] + message;
      writes := writes + [message];
      at := at + readLen;
      if readLen < chunk { break; }
    }
    assert file[..at] == file;
    socket.ended := true;
  }

  /** Lines 26 to 28 of the client: it stores the whole stream. */
  method ReceiveFile(cap: nat, socket: Channel) returns (stored: seq<byte>)
    requires cap > 0 && socket.ended
    modifies socket`unread
    ensures stored == old(socket.unread) && socket.unread == []
  {
    stored := [];
    var piece := socket.Read(cap);
    while piece != []
      invariant stored + piece + socket.unread == old(socket.unread)
      invariant piece == [] ==> socket.unread == []
      decreases |piece| + |socket.unread|
    {
      stored := stored + piece;
      ghost var rest := socket.unread;
      piece := socket.Read(cap);
      assert piece + socket.unread == rest;
    }
  }
}
