/** Binary files written at the end and read from the front. */
module Streams {
  import opened Basics

  class OutFile {
    var bytes: seq<Byte>

    constructor ()
      ensures bytes == []
    {
      bytes := [];
    }

    method Put(bs: seq<Byte>)
      modifies this
      ensures bytes == old(bytes) + bs
    {
      bytes := bytes + bs;
    }
  }

  class InFile {
    const bytes: seq<Byte>
    var pos: nat

    ghost predicate Valid()
      reads this
    {
      pos <= |bytes|
    }

    function Rest(): seq<Byte>
      reads this
      requires Valid()
    {
      bytes[pos..]
    }

    constructor (bs: seq<Byte>)
      ensures Valid() && Rest() == bs
    {
      bytes, pos := bs, 0;
    }

    /** Up to `n` bytes; all that is left when `n` is negative. */
    method Read(n: int) returns (buf: seq<Byte>)
      requires Valid()
      modifies this
      ensures Valid()
      ensures if n < 0 || |old(Rest())| <= n then buf == old(Rest()) && Rest() == []
              else buf == old(Rest())[..n] && Rest() == old(Rest())[n..]
    {
      if n < 0 || |bytes| - pos <= n {
        buf, pos := bytes[pos..], |bytes|;
      } else {
        buf, pos := bytes[pos..pos + n], pos + n;
      }
    }
  }
}
