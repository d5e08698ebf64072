/**
 tcp/echo_store_server.c: a process for each client echoes what it reads and copies it into one pipe, from
 which the logger makes a fixed number of reads. Each step is one system call.
 Assumptions: a pipe write of a chunk is atomic, writes are whole, read does not fail.
 */
module StoreLog {
  import opened ByteTypes
  import opened Sequences

  /** Lines 76 to 78 of a client's process. */
  datatype Phase = Reading | Echoing(chunk: Chunk) | Logging(chunk: Chunk) | Left

  datatype Client = Client(phase: Phase, echoed: seq<Chunk>)

  /**
   writes and writers list the chunks written to the pipe and the clients that wrote them; pipe holds the
   bytes not yet read from it, turns counts the logger's reads and log is its file.
   */
  datatype Store = Store(clients: seq<Client>, writes: seq<Chunk>, writers: seq<nat>, pipe: seq<byte>,
                         turns: nat, log: seq<byte>)

  const INITIAL := Store([], [], [], [], 0, [])

  // ----- The steps, for a buffer of size bytes and a logger that reads limit times

  ghost predicate Connect(s: Store, s': Store) {
    s' == s.(clients := s.clients + [Client(Reading, [])])
  }

  ghost predicate Read(size: nat, s: Store, s': Store, c: nat, chunk: Chunk) {
    && c < |s.clients| && s.clients[c].phase.Reading? && 0 < |chunk| <= size
    && s' == s.(clients := s.clients[c := s.clients[c].(phase := Echoing(chunk))])
  }

  ghost predicate Echo(s: Store, s': Store, c: nat) {
    && c < |s.clients| && s.clients[c].phase.Echoing?
    && var chunk := s.clients[c].phase.chunk;
       s' == s.(clients := s.clients[c := Client(Logging(chunk), s.clients[c].echoed + [chunk])])
  }

  ghost predicate WritePipe(s: Store, s': Store, c: nat) {
    && c < |s.clients| && s.clients[c].phase.Logging?
    && var chunk := s.clients[c].phase.chunk;
       s' == s.(clients := s.clients[c := s.clients[c].(phase := Reading)], pipe := s.pipe + chunk,
                writes := s.writes + [chunk], writers := s.writers + [c])
  }

  ghost predicate Leave(s: Store, s': Store, c: nat) {
    && c < |s.clients| && s.clients[c].phase.Reading?
    && s' == s.(clients := s.clients[c := s.clients[c].(phase := Left)])
  }

  ghost predicate StoreOnce(size: nat, limit: nat, s: Store, s': Store) {
    && s.turns < limit
    && exists n: nat :: 1 <= n <= |s.pipe| && n <= size
         && s' == s.(pipe := s.pipe[n..], log := s.log + s.pipe[..n], turns := s.turns + 1)
  }

  ghost predicate Next(size: nat, limit: nat, s: Store, s': Store) {
    || Connect(s, s') || StoreOnce(size, limit, s, s')
    || (exists c, chunk :: Read(size, s, s', c, chunk))
    || (exists c :: Echo(s, s', c))
    || (exists c :: WritePipe(s, s', c))
    || (exists c :: Leave(s, s', c))
  }

  ghost predicate IsRun(size: nat, limit: nat, run: seq<Store>) {
    && |run| > 0 && run[0] == INITIAL
    && forall k :: 0 <= k < |run| - 1 ==> Next(size, limit, run[k], run[k + 1])
  }

  // ----- The invariant

  /** The chunk that was echoed and still has to go into the pipe. */
  function Pending(x: Client): seq<Chunk> { if x.phase.Logging? then [x.phase.chunk] else [] }

  ghost predicate Inv(size: nat, limit: nat, s: Store) {
    && |s.writes| == |s.writers|
    && (forall k :: 0 <= k < |s.writers| ==> s.writers[k] < |s.clients|)
    && s.log + s.pipe == Concat(s.writes)
    && s.turns <= limit && |s.log| <= size * s.turns
    && forall c :: 0 <= c < |s.clients| ==>
         Own(s.writes, s.writers, c, |s.writes|) + Pending(s.clients[c]) == s.clients[c].echoed
  }

  lemma ConnectKeepsInv(size: nat, limit: nat, s: Store, s': Store)
    requires Inv(size, limit, s) && Connect(s, s')
    ensures Inv(size, limit, s')
  {
    OwnNone(s.writes, s.writers, |s.clients|, |s.writes|);
  }

  lemma StoreOnceKeepsInv(size: nat, limit: nat, s: Store, s': Store)
    requires Inv(size, limit, s) && StoreOnce(size, limit, s, s')
    ensures Inv(size, limit, s')
  {
    var n: nat :| 1 <= n <= |s.pipe| && n <= size
                  && s' == s.(pipe := s.pipe[n..], log := s.log + s.pipe[..n], turns := s.turns + 1);
    MulStep(size, s.turns);
    MovePiece(s.log, s.pipe, n);
  }

  lemma WritePipeKeepsInv(size: nat, limit: nat, s: Store, s': Store, c: nat)
    requires Inv(size, limit, s) && WritePipe(s, s', c)
    ensures Inv(size, limit, s')
  {
    var chunk := s.clients[c].phase.chunk;
    assert s'.writes[..|s.writes|] == s.writes;
    forall d | 0 <= d < |s.clients| { OwnPrefix(s.writes, s.writers, s'.writes, s'.writers, d, |s.writes|); }
    assert s'.log + s'.pipe == s.log + s.pipe + chunk;
  }

  lemma {:induction false} RunInv(size: nat, limit: nat, run: seq<Store>, k: nat)
    requires IsRun(size, limit, run) && k < |run|
    ensures Inv(size, limit, run[k])
  {
    if k == 0 {
    } else {
      RunInv(size, limit, run, k - 1);
      var s, s' := run[k - 1], run[k];
      assert Next(size, limit, s, s');
      if Connect(s, s') {
        ConnectKeepsInv(size, limit, s, s');
      } else if StoreOnce(size, limit, s, s') {
        StoreOnceKeepsInv(size, limit, s, s');
      } else if c :| WritePipe(s, s', c) {
        WritePipeKeepsInv(size, limit, s, s', c);
      } else {
        OtherKeepsInv(size, limit, s, s');
      }
    }
  }

  lemma OtherKeepsInv(size: nat, limit: nat, s: Store, s': Store)
    requires Inv(size, limit, s)
    requires (exists c, chunk :: Read(size, s, s', c, chunk)) || exists c :: Echo(s, s', c) || Leave(s, s', c)
    ensures Inv(size, limit, s')
  {
  }

  // ----- The theorems

  /**
   The log is a prefix of a merge of what the clients sent: of the chunks in the order of their pipe writes,
   among which each client's are its echoed chunks, in order, without the last if it is still to be written.
   */
  lemma LogIsShuffle(size: nat, limit: nat, run: seq<Store>, k: nat)
    requires IsRun(size, limit, run) && k < |run|
    ensures var s := run[k];
            && |s.writes| == |s.writers| && s.log <= Concat(s.writes)
            && (forall j :: 0 <= j < |s.writers| ==> s.writers[j] < |s.clients|)
            && forall c :: 0 <= c < |s.clients| ==>
                 s.clients[c].echoed == Own(s.writes, s.writers, c, |s.writes|) + Pending(s.clients[c])
  {
    RunInv(size, limit, run, k);
  }

  /** The log never has more than limit buffers full. */
  lemma LogIsBounded(size: nat, limit: nat, run: seq<Store>, k: nat)
    requires IsRun(size, limit, run) && k < |run|
    ensures |run[k].log| <= limit * size
  {
    RunInv(size, limit, run, k);
    MulMono(size, run[k].turns, limit);
  }

  /** A process reads, echoes and writes to the pipe in turn, until its read finds the end. */
  ghost predicate Continues(x: Client, x': Client) {
    match x.phase
    case Reading => x'.echoed == x.echoed && (x'.phase.Echoing? || x'.phase.Left?)
    case Echoing(chunk) => x'.echoed == x.echoed + [chunk] && x'.phase == Logging(chunk)
    case Logging(_) => x'.echoed == x.echoed && x'.phase.Reading?
    case Left => false
  }

  /** In every run each step leaves a process where it is or takes it to its next point. */
  lemma ProcessSteps(size: nat, limit: nat, run: seq<Store>, k: nat, c: nat)
    requires IsRun(size, limit, run) && k + 1 < |run| && c < |run[k].clients|
    ensures c < |run[k + 1].clients|
    ensures run[k + 1].clients[c] == run[k].clients[c] || Continues(run[k].clients[c], run[k + 1].clients[c])
  {
    assert Next(size, limit, run[k], run[k + 1]);
  }

  ghost predicate Reachable(size: nat, limit: nat, s: Store) {
    exists run: seq<Store> :: IsRun(size, limit, run) && run[|run| - 1] == s
  }

  lemma Extend(size: nat, limit: nat, s: Store, s': Store)
    requires Reachable(size, limit, s) && Next(size, limit, s, s')
    ensures Reachable(size, limit, s')
  {
    var run: seq<Store> :| IsRun(size, limit, run) && run[|run| - 1] == s;
    var longer := run + [s'];
    assert IsRun(size, limit, longer) && longer[|longer| - 1] == s';
  }

  /** n processes wait for their clients, and the logger has stored everything. */
  ghost predicate Idle(size: nat, limit: nat, s: Store, n: nat) {
    && Reachable(size, limit, s) && |s.clients| == n && s.pipe == [] && s.turns == |s.writes|
    && s.log == Concat(s.writes) && forall c :: 0 <= c < n ==> s.clients[c].phase.Reading?
  }

  lemma {:induction false} ConnectAll(size: nat, limit: nat, n: nat) returns (s: Store)
    ensures Idle(size, limit, s, n) && s.writes == [] && s.writers == []
  {
    if n == 0 {
      s := INITIAL;
      assert IsRun(size, limit, [s]) && [s][|[s]| - 1] == s;
    } else {
      var before := ConnectAll(size, limit, n - 1);
      s := before.(clients := before.clients + [Client(Reading, [])]);
      Extend(size, limit, before, s);
    }
  }

  /** Process c reads a chunk, echoes it and writes it to the pipe, and the logger stores it. */
  lemma Say(size: nat, limit: nat, s: Store, n: nat, c: nat, chunk: Chunk) returns (s': Store)
    requires Idle(size, limit, s, n) && c < n && 0 < |chunk| <= size && s.turns < limit
    ensures Idle(size, limit, s', n) && s'.writes == s.writes + [chunk] && s'.writers == s.writers + [c]
  {
    var x := s.clients[c];
    var s1 := s.(clients := s.clients[c := x.(phase := Echoing(chunk))]);
    assert Read(size, s, s1, c, chunk);
    Extend(size, limit, s, s1);
    var s2 := s1.(clients := s1.clients[c := Client(Logging(chunk), x.echoed + [chunk])]);
    assert Echo(s1, s2, c);
    Extend(size, limit, s1, s2);
    var s3 := s2.(clients := s2.clients[c := Client(Reading, x.echoed + [chunk])], pipe := s2.pipe + chunk,
                  writes := s2.writes + [chunk], writers := s2.writers + [c]);
    assert WritePipe(s2, s3, c);
    Extend(size, limit, s2, s3);
    s' := s3.(pipe := [], log := s3.log + chunk, turns := s3.turns + 1);
    assert s3.pipe == chunk && chunk[..|chunk|] == chunk && chunk[|chunk|..] == [];
    assert StoreOnce(size, limit, s3, s');
    Extend(size, limit, s3, s');
    assert (s.writes + [chunk])[..|s.writes|] == s.writes;
  }

  lemma {:induction false} SayAll(size: nat, limit: nat, n: nat, chunks: seq<Chunk>, writers: seq<nat>)
    returns (s: Store)
    requires |chunks| == |writers| <= limit
    requires forall k :: 0 <= k < |chunks| ==> 0 < |chunks[k]| <= size && writers[k] < n
    ensures Idle(size, limit, s, n) && s.writes == chunks && s.writers == writers
  {
    if chunks == [] {
      s := ConnectAll(size, limit, n);
    } else {
      var last := |chunks| - 1;
      var before := SayAll(size, limit, n, chunks[..last], writers[..last]);
      s := Say(size, limit, before, n, writers[last], chunks[last]);
      assert chunks == chunks[..last] + [chunks[last]] && writers == writers[..last] + [writers[last]];
    }
  }

  /** Whatever n clients send, in whatever order, there is a run that echoes and logs all of it. */
  lemma EveryScriptRuns(size: nat, limit: nat, n: nat, chunks: seq<Chunk>, writers: seq<nat>) returns (run: seq<Store>)
    requires |chunks| == |writers| <= limit
    requires forall k :: 0 <= k < |chunks| ==> 0 < |chunks[k]| <= size && writers[k] < n
    ensures IsRun(size, limit, run)
    ensures var s := run[|run| - 1];
            && |s.clients| == n && s.log == Concat(chunks)
            && forall c :: 0 <= c < n ==>
                 s.clients[c].phase.Reading? && s.clients[c].echoed == Own(chunks, writers, c, |chunks|)
  {
    var s := SayAll(size, limit, n, chunks, writers);
    run :| IsRun(size, limit, run) && run[|run| - 1] == s;
    LogIsShuffle(size, limit, run, |run| - 1);
  }

  // ----- The logger's loop as it is written

  class Pipe {
    var unread: seq<byte>
    /** All that was ever written. */
    ghost var written: seq<byte>
    ghost var taken: seq<byte>

    ghost predicate Valid()
      reads this
    {
      taken + unread == written
    }

    constructor ()
      ensures Valid() && taken == []
    {
      unread, written, taken := [], [], [];
    }

    /** read blocks until the clients' processes have written something. */
    method Read(size: nat) returns (got: Chunk)
      requires Valid() && size > 0
      modifies this
      ensures Valid() && 0 < |got| <= size && taken == old(taken) + got && old(written) <= written
    {
      var more: seq<byte> := *;
      if unread + more == [] { more := [0]; }
      unread, written := unread + more, written + more;
      var n: nat :| 1 <= n <= |unread| && n <= size;
      got := unread[..n];
      assert unread == unread[..n] + unread[n..];
      unread, taken := unread[n..], taken + got;
    }
  }

  /** Lines 55 to 58: the file gets what was written to the pipe, in order, up to limit buffers full. */
  method RunLogger(size: nat, limit: nat, pipe: Pipe) returns (log: seq<byte>)
    requires pipe.Valid() && pipe.taken == [] && size > 0
    modifies pipe
    ensures pipe.Valid() && log <= pipe.written && limit <= |log| <= size * limit
  {
    log := [];
    for i := 0 to limit
      invariant pipe.Valid() && log == pipe.taken && i <= |log| <= size * i
    {
      var got := pipe.Read(size);
      log := log + got;
      MulStep(size, i);
    }
  }
}
