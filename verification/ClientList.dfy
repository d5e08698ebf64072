/** The array of client sockets of chat_server.c, updated in place while the caller holds the mutex. */
module ClientList {
  import opened ByteTypes
  import opened Sequences

  /** The list after the removal code at lines 83 to 92: the count drops whether or not sock was found. */
  function Removed(list: seq<int>, sock: int): (r: seq<int>)
    requires list != []
    ensures |r| == |list| - 1
  {
    if list[0] == sock || |list| == 1 then list[1..] else [list[0]] + Removed(list[1..], sock)
  }

  /** Removing a listed socket deletes just it, from position k, and keeps the order of the others. */
  lemma {:induction false} RemovedListed(list: seq<int>, k: nat)
    requires k < |list| && forall j :: 0 <= j < k ==> list[j] != list[k]
    ensures Removed(list, list[k]) == list[..k] + list[k + 1..]
  {
    if k == 0 {
    } else {
      RemovedListed(list[1..], k - 1);
    }
  }

  /** An unlisted socket costs the last client its place instead. */
  lemma {:induction false} RemovedUnlisted(list: seq<int>, sock: int)
    requires list != [] && sock !in list
    ensures Removed(list, sock) == list[..|list| - 1]
  {
    if |list| == 1 {
    } else {
      RemovedUnlisted(list[1..], sock);
    }
  }

  lemma RemovedDistinct(list: seq<int>, k: nat)
    requires k < |list| && Distinct(list)
    ensures Distinct(Removed(list, list[k])) && list[k] !in Removed(list, list[k])
  {
    RemovedListed(list, k);
  }

  lemma RemovedKeepsOthers(list: seq<int>, k: nat, x: int)
    requires k < |list| && Distinct(list) && x != list[k]
    ensures x in Removed(list, list[k]) <==> x in list
  {
    RemovedListed(list, k);
    assert list == list[..k] + [list[k]] + list[k + 1..];
  }

  lemma RemovedLosesOther(list: seq<int>, sock: int)
    requires list != [] && Distinct(list) && sock !in list
    ensures list[|list| - 1] != sock && list[|list| - 1] !in Removed(list, sock)
    ensures Distinct(Removed(list, sock))
  {
    RemovedUnlisted(list, sock);
  }

  /** So the caller's socket, and only it, leaves a duplicate-free list exactly if it was there. */
  lemma RemovedIsExact(list: seq<int>, sock: int)
    requires list != [] && Distinct(list)
    ensures Distinct(Removed(list, sock))
    ensures (forall x :: x in Removed(list, sock) <==> x in list && x != sock) <==> sock in list
  {
    if sock in list {
      var k :| 0 <= k < |list| && list[k] == sock;
      forall x
        ensures x in Removed(list, sock) <==> x in list && x != sock
      {
        if x != sock { RemovedKeepsOthers(list, k, x); } else { RemovedDistinct(list, k); }
      }
      RemovedDistinct(list, k);
    } else {
      RemovedLosesOther(list, sock);
      assert list[|list| - 1] in list;
    }
  }

  class Clients {
    const sockets: array<int>
    var clientCnt: nat
    /** Every write made, in order: the socket and the message. */
    ghost var written: seq<(int, Chunk)>

    ghost predicate Valid()
      reads this
    {
      clientCnt <= sockets.Length
    }

    ghost function Contents(): seq<int>
      requires Valid()
      reads this, sockets
    {
      sockets[..clientCnt]
    }

    constructor (max: nat)
      ensures Valid() && fresh(sockets) && sockets.Length == max && Contents() == [] && written == []
    {
      sockets := new int[max];
      clientCnt := 0;
      written := [];
    }

    /** Line 53 of main: there must be room. */
    method Register(sock: int)
      requires Valid() && clientCnt < sockets.Length
      modifies this`clientCnt, sockets
      ensures Valid() && Contents() == old(Contents()) + [sock]
    {
      sockets[clientCnt] := sock;
      clientCnt := clientCnt + 1;
    }

    /** Lines 85 to 88 of threadMain: the clients behind position k move down by one. */
    method ShiftDown(k: nat)
      requires Valid() && k < clientCnt
      modifies sockets
      ensures sockets[..clientCnt - 1] == old(sockets[..k] + sockets[k + 1..clientCnt])
    {
      var i := k;
      while i < clientCnt - 1
        invariant k <= i < clientCnt
        invariant forall j :: 0 <= j < k || i < j < clientCnt ==> sockets[j] == old(sockets[j])
        invariant forall j :: k <= j < i ==> sockets[j] == old(sockets[j + 1])
      {
        sockets[i] := sockets[i + 1];
        i := i + 1;
      }
    }

    /** Lines 83 to 92 of threadMain: shift sock away if it is listed, then drop the count. */
    method Remove(sock: int)
      requires Valid() && clientCnt > 0
      modifies this`clientCnt, sockets
      ensures Valid() && Contents() == Removed(old(Contents()), sock)
    {
      ghost var list := Contents();
      var i := 0;
      while i < clientCnt && sockets[i] != sock
        invariant 0 <= i <= clientCnt && Contents() == list
        invariant forall j :: 0 <= j < i ==> list[j] != sock
      {
        i := i + 1;
      }
      if i < clientCnt {
        RemovedListed(list, i);
        ShiftDown(i);
      } else {
        RemovedUnlisted(list, sock);
      }
      clientCnt := clientCnt - 1;
    }

    /** The loop of sendMessage: one write to each client, in list order. */
    method SendMessage(message: Chunk)
      requires Valid()
      modifies this`written
      ensures Valid() && Contents() == old(Contents())
      ensures |written| == |old(written)| + clientCnt && old(written) <= written
      ensures forall k :: 0 <= k < clientCnt ==> written[|old(written)| + k] == (Contents()[k], message)
    {
      for i := 0 to clientCnt
        invariant Valid() && Contents() == old(Contents())
        invariant |written| == |old(written)| + i && written[..|old(written)|] == old(written)
        invariant forall k :: 0 <= k < i ==> written[|old(written)| + k] == (sockets[k], message)
      {
        written := written + [(sockets[i], message)];
      }
    }
  }
}
