/** Byte streams: in-memory buffers and file descriptors (readable_buffer.hpp, writable_buffer.hpp,
    file_descriptor.cpp). */
module Streams {
  import opened Bytes
  import opened Wire

  datatype Option<+T> = None | Some(value: T)
  {
    predicate IsFailure() {
      None?
    }

    function PropagateFailure<U>(): Option<U>
      requires None?
    {
      None
    }

    function Extract(): T
      requires Some?
    {
      value
    }
  }

  /** Reads bytes that are already in memory, from front to back. */
  class ReadableBuffer {
    const bytes_: seq<byte>
    var index_: nat

    ghost predicate Valid()
      reads this
    {
      index_ <= |bytes_|
    }

    ghost function Remaining(): seq<byte>
      requires Valid()
      reads this
    {
      bytes_[index_..]
    }

    constructor (bytes: seq<byte>)
      ensures Valid() && Remaining() == bytes
    {
      bytes_, index_ := bytes, 0;
    }

    method Read(nbytes: nat) returns (dst: Option<seq<byte>>)
      requires Valid()
      modifies this
      ensures Valid()
      ensures Reads(TakeBytes(nbytes, old(Remaining())), dst, Remaining(), true)
    {
      var first := index_;
      var last := first + nbytes;
      if last > |bytes_| {
        return None;
      }
      index_ := index_ + nbytes;
      assert old(Remaining())[..nbytes] == bytes_[first..last] && old(Remaining())[nbytes..] == bytes_[last..];
      dst := Some(bytes_[first..last]);
    }
  }

  /** Collects in memory the bytes that are written to it. */
  class WritableBuffer {
    var bytes_: seq<byte>

    constructor ()
      ensures bytes_ == []
    {
      bytes_ := [];
    }

    method Write(src: seq<byte>)
      modifies this
      ensures bytes_ == old(bytes_) + src
    {
      bytes_ := bytes_ + src;
    }
  }

  /** What the kernel answers to the calls made on one end of a descriptor, call by call: a negative number is an
      error, any other number is how many bytes it is willing to move, though never none when it could move some. */
  type Schedule = nat -> int

  ghost predicate Quiet(schedule: Schedule) {
    forall t :: schedule(t) >= 0
  }

  /** The readable end of an open file or socket: the bytes that have still to be delivered. */
  class ReadEnd {
    const schedule: Schedule
    var pending: seq<byte>
    var clock: nat

    constructor (bytes: seq<byte>, schedule: Schedule)
      ensures this.schedule == schedule && pending == bytes
    {
      this.schedule, pending, clock := schedule, bytes, 0;
    }

    /** read(2): delivers at least one byte unless none is asked for or none is left. */
    method SysRead(nbytes: nat) returns (nr: int, data: seq<byte>)
      modifies this
      ensures nr < 0 ==> pending == old(pending) && !Quiet(schedule)
      ensures nr >= 0 ==> nr == |data| <= nbytes && data + pending == old(pending)
      ensures nr == 0 ==> nbytes == 0 || old(pending) == []
    {
      var k := schedule(clock);
      clock := clock + 1;
      if k < 0 {
        return -1, [];
      }
      var most := if nbytes < |pending| then nbytes else |pending|;
      nr := if k == 0 && most > 0 then 1 else if k < most then k else most;
      data := pending[..nr];
      pending := pending[nr..];
    }
  }

  /** The writable end of an open file or socket: the bytes accepted so far. */
  class WriteEnd {
    const schedule: Schedule
    var accepted: seq<byte>
    var clock: nat

    constructor (schedule: Schedule)
      ensures this.schedule == schedule && accepted == []
    {
      this.schedule, accepted, clock := schedule, [], 0;
    }

    /** write(2): accepts at least one byte unless none is offered. */
    method SysWrite(src: seq<byte>) returns (nw: int)
      modifies this
      ensures nw < 0 ==> accepted == old(accepted) && !Quiet(schedule)
      ensures nw >= 0 ==> nw <= |src| && accepted == old(accepted) + src[..nw]
      ensures nw == 0 ==> src == []
    {
      var k := schedule(clock);
      clock := clock + 1;
      if k < 0 {
        return -1;
      }
      nw := if k == 0 && src != [] then 1 else if k < |src| then k else |src|;
      accepted := accepted + src[..nw];
    }
  }

  /** The two ends of an open file or socket, read and written whole although each call may move only a part. */
  class FileDescriptor {
    const readEnd: ReadEnd
    const writeEnd: WriteEnd

    constructor (readEnd: ReadEnd, writeEnd: WriteEnd)
      ensures this.readEnd == readEnd && this.writeEnd == writeEnd
    {
      this.readEnd, this.writeEnd := readEnd, writeEnd;
    }

    /** Delivers exactly the next `nbytes` bytes however the kernel splits them up; failing takes an error or too few
        bytes. */
    method Read(nbytes: nat) returns (dst: Option<seq<byte>>)
      modifies readEnd
      ensures Reads(TakeBytes(nbytes, old(readEnd.pending)), dst, readEnd.pending, Quiet(readEnd.schedule))
      ensures IsSuffix(readEnd.pending, old(readEnd.pending))
    {
      var p: seq<byte>, left := [], nbytes;
      ghost var before := readEnd.pending;
      while left > 0
        invariant p + readEnd.pending == before && |p| + left == nbytes && left >= 0
        decreases left
      {
        var nr, data := readEnd.SysRead(left);
        if nr < 0 {
          return None;
        } else if nr == 0 {
          return None;
        }
        p := p + data;
        left := left - nr;
      }
      assert before[..nbytes] == p && before[nbytes..] == readEnd.pending;
      dst := Some(p);
    }

    /** Hands over all of `src`, once and in order; failing takes an error and leaves a front part of it written. */
    method Write(src: seq<byte>) returns (ok: bool)
      modifies writeEnd
      ensures ok ==> writeEnd.accepted == old(writeEnd.accepted) + src
      ensures !ok ==> !Quiet(writeEnd.schedule)
      ensures WrotePart(old(writeEnd.accepted), src, writeEnd.accepted)
    {
      var p := 0;
      ghost var before := writeEnd.accepted;
      while p < |src|
        invariant 0 <= p <= |src| && writeEnd.accepted == before + src[..p]
      {
        var nw := writeEnd.SysWrite(src[p..]);
        if nw < 0 {
          return false;
        }
        assert src[..p] + src[p..][..nw] == src[..p + nw];
        p := p + nw;
      }
      assert src[..p] == src;
      return true;
    }
  }

  /** The stream went from `before` to `after` by writing a front part of `src`. */
  ghost predicate WrotePart(before: seq<byte>, src: seq<byte>, after: seq<byte>) {
    exists k :: 0 <= k <= |src| && after == before + src[..k]
  }

  lemma WroteFirst(before: seq<byte>, a: seq<byte>, b: seq<byte>, after: seq<byte>)
    requires WrotePart(before, a, after)
    ensures WrotePart(before, a + b, after)
  {
    var k :| 0 <= k <= |a| && after == before + a[..k];
    assert (a + b)[..k] == a[..k];
  }

  lemma WroteSecond(before: seq<byte>, a: seq<byte>, b: seq<byte>, after: seq<byte>)
    requires WrotePart(before + a, b, after)
    ensures WrotePart(before, a + b, after)
  {
    var k :| 0 <= k <= |b| && after == (before + a) + b[..k];
    assert (a + b)[..|a| + k] == a + b[..k];
    assert (before + a) + b[..k] == before + (a + b)[..|a| + k];
  }

  /** What a read that should behave as the parser result `p` may return: the parsed value with the parsed bytes gone,
      or, if the parser fails or the stream is not free of errors, a failure. */
  ghost predicate Reads<T>(p: Parsed<T>, r: Option<T>, after: seq<byte>, quiet: bool) {
    match r
    case Some(v) => p == Ok(v, after)
    case None => p.Err? || !quiet
  }

  /** A readable byte stream is one of the two classes that implement the interface. */
  datatype IReadable = Buffer(buffer: ReadableBuffer) | Descriptor(fd: FileDescriptor)
  {
    ghost function Repr(): set<object> {
      match this
      case Buffer(b) => {b}
      case Descriptor(fd) => {fd.readEnd}
    }

    ghost predicate Valid()
      reads Repr()
    {
      Buffer? ==> buffer.Valid()
    }

    ghost function Remaining(): seq<byte>
      requires Valid()
      reads Repr()
    {
      match this
      case Buffer(b) => b.Remaining()
      case Descriptor(fd) => fd.readEnd.pending
    }

    /** Whether reads fail only for want of bytes. */
    ghost predicate IsQuiet() {
      Descriptor? ==> Quiet(fd.readEnd.schedule)
    }

    method Read(nbytes: nat) returns (dst: Option<seq<byte>>)
      requires Valid()
      modifies Repr()
      ensures Valid()
      ensures Reads(TakeBytes(nbytes, old(Remaining())), dst, Remaining(), IsQuiet())
    {
      match this
      case Buffer(b) => dst := b.Read(nbytes);
      case Descriptor(fd) => dst := fd.Read(nbytes);
    }
  }
}
