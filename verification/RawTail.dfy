/** The bounded tail of raw PTY output kept for wait diagnostics. */
module RawTail {
  import opened Basics

  const RAW_TAIL_CAP: nat := 2048

  /** The last RAW_TAIL_CAP bytes of `s`, or all of it. */
  function Tail(s: Bytes): (t: Bytes)
    ensures |t| == if |s| < 2048 then |s| else 2048
  {
    if |s| <= RAW_TAIL_CAP then s else s[|s| - RAW_TAIL_CAP..]
  }

  /** The tail is what stands last: some earlier bytes and it make up the whole. */
  lemma TailIsLast(s: Bytes)
    ensures exists earlier: Bytes :: earlier + Tail(s) == s
  {
    assert s[..|s| - |Tail(s)|] + Tail(s) == s;
  }

  class Buffer {
    var tail: Bytes

    constructor ()
      ensures tail == []
    {
      tail := [];
    }

    /** Append, evicting the oldest bytes; whatever was pushed before, only its tail matters. */
    method Push(bytes: Bytes)
      modifies this
      ensures tail == Tail(old(tail) + bytes)
    {
      if |bytes| >= RAW_TAIL_CAP {
        tail := [];
        tail := tail + bytes[|bytes| - RAW_TAIL_CAP..];
        return;
      }
      var dropped := 0;
      while |tail| + |bytes| > RAW_TAIL_CAP
        invariant dropped <= |old(tail)| && tail == old(tail)[dropped..]
        invariant dropped > 0 ==> |tail| + |bytes| >= RAW_TAIL_CAP
      {
        tail := tail[1..];
        dropped := dropped + 1;
      }
      tail := tail + bytes;
    }
  }

  function Concat(chunks: seq<Bytes>): Bytes {
    if chunks == [] then [] else Concat(chunks[..|chunks| - 1]) + chunks[|chunks| - 1]
  }

  /** Keeping only the tail between pushes loses nothing the tail needs. */
  lemma TailAbsorbs(s: Bytes, t: Bytes)
    ensures Tail(Tail(s) + t) == Tail(s + t)
  {
  }

  /** After any chunks of any sizes the buffer holds the tail of all of them. */
  method PushAll(chunks: seq<Bytes>) returns (tail: Bytes)
    ensures tail == Tail(Concat(chunks))
  {
    var buffer := new Buffer();
    for i := 0 to |chunks|
      invariant buffer.tail == Tail(Concat(chunks[..i]))
    {
      buffer.Push(chunks[i]);
      TailAbsorbs(Concat(chunks[..i]), chunks[i]);
      assert chunks[..i + 1][..i] == chunks[..i];
    }
    assert chunks[..|chunks|] == chunks;
    tail := buffer.tail;
  }
}
