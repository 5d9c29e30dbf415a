/** Writing primitive types to a byte stream (iwritable.cpp). */
module Writer {
  import opened Bytes
  import opened Varint
  import opened Wire
  import opened Streams

  /** Brings a host integer into network byte order and writes its memory. */
  method WriteInteger(dst: WritableBuffer, w: width, n: int)
    modifies dst
    ensures dst.bytes_ == old(dst.bytes_) + BigBytes(w, n)
  {
    var memory := Store(NATIVE, w, ToNetworkByteOrder(NATIVE, w, n));
    HostToNetwork(NATIVE, w, n);
    dst.Write(memory);
  }

  method WriteInt8(dst: WritableBuffer, n: INT8)
    modifies dst
    ensures dst.bytes_ == Put(Int(1, true), Num(n), old(dst.bytes_))
  {
    WriteInteger(dst, 1, n);
  }

  method WriteInt16(dst: WritableBuffer, n: INT16)
    modifies dst
    ensures dst.bytes_ == Put(Int(2, true), Num(n), old(dst.bytes_))
  {
    WriteInteger(dst, 2, n);
  }

  method WriteInt32(dst: WritableBuffer, n: INT32)
    modifies dst
    ensures dst.bytes_ == Put(Int(4, true), Num(n), old(dst.bytes_))
  {
    WriteInteger(dst, 4, n);
  }

  method WriteInt64(dst: WritableBuffer, n: INT64)
    modifies dst
    ensures dst.bytes_ == Put(Int(8, true), Num(n), old(dst.bytes_))
  {
    WriteInteger(dst, 8, n);
  }

  method WriteUint32(dst: WritableBuffer, n: UINT32)
    modifies dst
    ensures dst.bytes_ == Put(Int(4, false), Num(n), old(dst.bytes_))
  {
    WriteInteger(dst, 4, n);
  }

  method WriteBoolean(dst: WritableBuffer, b: bool)
    modifies dst
    ensures dst.bytes_ == Put(Int(1, false), Num(if b then 1 else 0), old(dst.bytes_))
  {
    var c: byte := if b then 1 else 0;
    assert BigBytes(1, 0) == [0] && BigBytes(1, 1) == [1];
    dst.Write([c]);
  }

  /** The do-while loop: every group but the last has its high bit set. */
  method WriteUnsignedVarlong(dst: WritableBuffer, n: UINT64)
    modifies dst
    ensures dst.bytes_ == old(dst.bytes_) + EncodeUnsigned(n)
  {
    var left := n;
    var more := true;
    ghost var whole := dst.bytes_ + EncodeUnsigned(n);
    while more
      invariant left >= 0
      invariant whole == if more then dst.bytes_ + EncodeUnsigned(left) else dst.bytes_
      decreases more, left
    {
      var c := left % 128;
      left := left / 128;
      if left > 0 {
        c := c + 128;
      }
      dst.Write([c]);
      more := left > 0;
    }
  }

  method WriteUnsignedVarint(dst: WritableBuffer, n: UINT32)
    modifies dst
    ensures dst.bytes_ == old(dst.bytes_) + EncodeUnsigned(n)
  {
    WriteUnsignedVarlong(dst, n);
  }

  method WriteVarint(dst: WritableBuffer, n: INT32)
    modifies dst
    ensures dst.bytes_ == Put(SignedVarint, Num(n), old(dst.bytes_))
  {
    WriteUnsignedVarint(dst, ZigZag32(n));
  }

  method WriteVarlong(dst: WritableBuffer, n: INT64)
    modifies dst
    ensures dst.bytes_ == Put(SignedVarlong, Num(n), old(dst.bytes_))
  {
    WriteUnsignedVarlong(dst, ZigZag64(n));
  }

  /** The length prefix of an array: a size cut to 32 bits. */
  method WriteCount(dst: WritableBuffer, size: nat)
    modifies dst
    ensures dst.bytes_ == old(dst.bytes_) + BigBytes(4, size)
  {
    WriteInteger(dst, 4, size);
  }

  /** The length prefix of a compact array or string: one more than its size, cut to 32 bits. */
  method WriteCompactCount(dst: WritableBuffer, size: nat)
    modifies dst
    ensures dst.bytes_ == old(dst.bytes_) + CompactLength(size)
  {
    WriteUnsignedVarint(dst, (size + 1) % TWO_32);
  }

  method WriteByte(dst: WritableBuffer, c: byte)
    modifies dst
    ensures dst.bytes_ == Put(Byte(c), Unit, old(dst.bytes_))
  {
    dst.Write([c]);
  }

  method WriteTaggedFields(dst: WritableBuffer)
    modifies dst
    ensures dst.bytes_ == Put(Byte(0), Unit, old(dst.bytes_))
  {
    WriteByte(dst, 0);
  }

  method WriteRaw(dst: WritableBuffer, data: seq<byte>)
    modifies dst
    ensures dst.bytes_ == Put(Raw(|data|), Blob(data), old(dst.bytes_))
  {
    dst.Write(data);
  }

  method WriteCompactNullableString(dst: WritableBuffer, str: seq<byte>)
    modifies dst
    ensures dst.bytes_ == Put(CompactString, Blob(str), old(dst.bytes_))
  {
    WriteCompactCount(dst, |str|);
    dst.Write(str);
    assert (old(dst.bytes_) + CompactLength(|str|)) + str == old(dst.bytes_) + (CompactLength(|str|) + str);
  }

  /** Sends a size and that many bytes down a descriptor. */
  method WriteBytes(fd: FileDescriptor, bytes: seq<byte>) returns (ok: bool)
    modifies fd.writeEnd
    ensures ok ==> fd.writeEnd.accepted == Put(SizedBytes, Blob(bytes), old(fd.writeEnd.accepted))
    ensures !ok ==> !Quiet(fd.writeEnd.schedule)
    ensures WrotePart(old(fd.writeEnd.accepted), Encode(SizedBytes, Blob(bytes)), fd.writeEnd.accepted)
  {
    var size := Store(NATIVE, 4, ToNetworkByteOrder(NATIVE, 4, |bytes|));
    HostToNetwork(NATIVE, 4, |bytes|);
    ghost var before := fd.writeEnd.accepted;
    hide WrotePart, BigBytes;
    ok := fd.Write(size);
    WroteFirst(before, size, bytes, fd.writeEnd.accepted);
    if !ok {
      return;
    }
    ok := fd.Write(bytes);
    WroteSecond(before, size, bytes, fd.writeEnd.accepted);
    assert (before + size) + bytes == before + (size + bytes);
  }
}
