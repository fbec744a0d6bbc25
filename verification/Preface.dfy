/** Telling HTTP/2 from HTTP/1.1 by the first bytes, and giving those bytes back. */
module Preface {
  import opened Wrappers
  import opened Codec

  /** `PRI * HTTP/2.0\r\n\r\nSM\r\n\r\n` (section 3.4 of RFC 9113). */
  const H2_PREFACE: Bytes := [
    80, 82, 73, 32, 42, 32, 72, 84, 84, 80, 47, 50, 46, 48, 13, 10,
    13, 10, 83, 77, 13, 10, 13, 10]

  datatype IoError = IoError

  /** The reading half of a socket: all that the peer will ever send, arriving cut in any way; a read may also fail. */
  class Source {
    const stream: Bytes
    var pos: nat

    predicate Valid()
      reads this
    {
      pos <= |stream|
    }

    function Rest(): Bytes
      reads this
      requires Valid()
    {
      stream[pos..]
    }

    constructor (stream: Bytes)
      ensures Valid() && this.stream == stream && pos == 0
    {
      this.stream, this.pos := stream, 0;
    }

    /** Some of the bytes there are, at most `want`; none only at the end, or when none are wanted. */
    method Read(want: nat) returns (bytes: Result<Bytes, IoError>)
      requires Valid()
      modifies this
      ensures Valid() && pos == old(pos) + (if bytes.Success? then |bytes.value| else 0)
      ensures bytes.Success? ==> |bytes.value| <= want && bytes.value == stream[old(pos)..pos]
      ensures bytes == Success([]) ==> want == 0 || pos == |stream|
    {
      var fails: bool :| true;
      if fails {
        return Failure(IoError);
      }
      var limit := if want <= |stream| - pos then want else |stream| - pos;
      var n: nat :| n <= limit && (n == 0 ==> limit == 0);
      bytes := Success(stream[pos..pos + n]);
      pos := pos + n;
    }
  }

  /**
    `detect_h2`: however the reads are cut, the answer is whether the stream
    begins with the preface, no byte after the 24th is read, and what was read is
    kept in `seen`. The last read was asked for at byte `asked`: never after the
    preface was ruled out.
   */
  method DetectH2(io: Source) returns (isH2: Result<bool, IoError>, seen: Bytes, ghost asked: nat)
    requires io.Valid() && io.pos == 0
    modifies io
    ensures io.Valid() && io.pos <= 24 && seen == io.stream[..io.pos]
    ensures isH2.Success? ==> (isH2.value <==> H2_PREFACE <= io.stream)
    ensures asked <= |seen| && asked < 24 && seen[..asked] <= H2_PREFACE
  {
    seen, asked := [], 0;
    while |seen| < 24
      invariant io.Valid() && io.pos <= 24 && seen == io.stream[..io.pos]
      invariant asked <= |seen| && asked < 24 && seen[..asked] <= H2_PREFACE
      decreases 24 - |seen|
    {
      if !(seen <= H2_PREFACE) {
        return Success(false), seen, asked;
      }
      asked := |seen|;
      var read := io.Read(24 - |seen|);
      if read.Failure? {
        return Failure(read.error), seen, asked;
      }
      if read.value == [] {
        return Success(false), seen, asked;
      }
      seen := seen + read.value;
    }
    return Success(seen == H2_PREFACE), seen, asked;
  }

  /** The bytes in `prefix`, then those still in the socket. */
  class Rewind {
    var prefix: Bytes
    const inner: Source

    predicate Valid()
      reads this, inner
    {
      inner.Valid()
    }

    /** All bytes a reader of this object has still to get. */
    function Rest(): Bytes
      reads this, inner
      requires Valid()
    {
      prefix + inner.Rest()
    }

    constructor (prefix: Bytes, inner: Source)
      requires inner.Valid()
      ensures Valid() && Rest() == prefix + inner.Rest() && this.inner == inner
    {
      this.prefix, this.inner := prefix, inner;
    }

    /** `poll_read` into a buffer with room for `remaining` bytes: the next bytes, none lost, repeated or reordered. */
    method Read(remaining: nat) returns (bytes: Result<Bytes, IoError>)
      requires Valid()
      modifies this, inner
      ensures Valid() && (if bytes.Success? then bytes.value + Rest() else Rest()) == old(Rest())
      ensures bytes.Success? ==> |bytes.value| <= remaining
      ensures bytes == Success([]) ==> remaining == 0 || Rest() == []
    {
      if prefix != [] {
        var count := if |prefix| <= remaining then |prefix| else remaining;
        bytes := Success(prefix[..count]);
        prefix := prefix[count..];
      } else {
        bytes := inner.Read(remaining);
      }
    }
  }

  /**
    Reading with buffers of any sizes gives the stream from its start, and, unless a read fails, all of
    it after enough reads.
   */
  method ReadWith(io: Rewind, sizes: seq<nat>) returns (all: Bytes, failed: bool)
    requires io.Valid()
    modifies io, io.inner
    ensures io.Valid() && all + io.Rest() == old(io.Rest())
    ensures !failed && 0 !in sizes ==> |all| >= |sizes| || all == old(io.Rest())
  {
    all, failed := [], false;
    var k := 0;
    while k < |sizes|
      invariant 0 <= k <= |sizes| && io.Valid() && all + io.Rest() == old(io.Rest())
      invariant 0 !in sizes ==> |all| >= k || io.Rest() == []
    {
      var bytes := io.Read(sizes[k]);
      if bytes.Failure? {
        return all, true;
      }
      all := all + bytes.value;
      k := k + 1;
    }
  }

  /** A new connection: what the protocol implementation then reads is the original stream, unchanged. */
  method Accept(io: Source) returns (isH2: Result<bool, IoError>, rewound: Rewind)
    requires io.Valid() && io.pos == 0
    modifies io
    ensures rewound.Valid() && fresh(rewound) && rewound.inner == io && rewound.Rest() == io.stream
    ensures isH2.Success? ==> (isH2.value <==> H2_PREFACE <= io.stream)
  {
    var seen;
    ghost var asked;
    isH2, seen, asked := DetectH2(io);
    rewound := new Rewind(seen, io);
  }
}
