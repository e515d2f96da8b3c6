/** The operating system's side of a descriptor: it decides how much each call moves. */
module Pipe {
  import opened Common

  datatype ReadResult = Chunk(data: bytes) | Interrupted | Broken

  /** What is still to be read. An interrupted call moves nothing and can be repeated. */
  class Source {
    var unread: bytes
    var interruptions: nat
    const faulty: bool

    constructor (stream: bytes, interruptions: nat, faulty: bool)
      ensures unread == stream && this.interruptions == interruptions && this.faulty == faulty
    {
      this.unread, this.interruptions, this.faulty := stream, interruptions, faulty;
    }

    /** Any positive number of bytes up to the limit; none only at the end of the stream. */
    method Read(limit: nat) returns (r: ReadResult)
      requires limit > 0
      modifies this
      ensures r.Chunk? ==>
        && old(unread) == r.data + unread && |r.data| <= limit
        && (r.data == [] <==> old(unread) == []) && interruptions == old(interruptions)
      ensures r.Interrupted? ==> unread == old(unread) && interruptions < old(interruptions)
      ensures r.Broken? ==> faulty && unread == old(unread)
    {
      if * {
        if interruptions > 0 {
          interruptions := interruptions - 1;
          return Interrupted;
        }
      } else if * {
        if faulty {
          return Broken;
        }
      }
      if unread == [] {
        return Chunk([]);
      }
      var n: nat :| 1 <= n <= limit && n <= |unread|;
      r := Chunk(unread[..n]);
      unread := unread[n..];
    }
  }

  datatype WriteResult = Wrote(count: int) | Retry | NoReader | WriteError

  /** What has been written. A call may take any prefix of what it is offered. */
  class Sink {
    var written: bytes
    var interruptions: nat

    constructor (interruptions: nat)
      ensures written == [] && this.interruptions == interruptions
    {
      this.written, this.interruptions := [], interruptions;
    }

    method Write(data: bytes) returns (r: WriteResult)
      modifies this
      ensures r.Wrote? && r.count > 0 ==>
        r.count <= |data| && written == old(written) + data[..r.count] && interruptions == old(interruptions)
      ensures !(r.Wrote? && r.count > 0) ==> written == old(written)
      ensures r.Retry? ==> interruptions < old(interruptions)
    {
      if * {
        if interruptions > 0 {
          interruptions := interruptions - 1;
          return Retry;
        }
      } else if * {
        return NoReader;
      } else if * {
        return WriteError;
      }
      var n: nat :| n <= |data|;
      written := written + data[..n];
      r := Wrote(n);
    }
  }
}
