/** A connected stream as its reader sees it: bytes arrive in order and come in pieces of any size. */
module Channels {
  import opened ByteTypes

  class Channel {
    /** The bytes written and not yet read. */
    var unread: seq<byte>
    /** The writer has shut its end down. */
    var ended: bool

    constructor (bytes: seq<byte>, ended: bool)
      ensures unread == bytes && this.ended == ended
    {
      unread, this.ended := bytes, ended;
    }

    /** read with room for cap bytes: any non-empty piece, or nothing at the end of the stream. */
    method Read(cap: nat) returns (got: Chunk)
      requires cap > 0 && (unread != [] || ended)
      modifies this`unread
      ensures got + unread == old(unread) && |got| <= cap
      ensures got == [] <==> old(unread) == []
    {
      if unread == [] { return []; }
      var n :| 1 <= n <= cap && n <= |unread|;
      got := unread[..n];
      unread := unread[n..];
    }

    /** A write of all the bytes. */
    method Write(bytes: Chunk)
      modifies this`unread
      ensures unread == old(unread) + bytes
    {
      unread := unread + bytes;
    }
  }
}
