/** The response builder of an earlier version of the server, for its varint encoder (KafkaResponse.hpp). */
module Legacy {
  import opened Bytes
  import opened Varint
  import opened Streams
  import opened Writer

  class KafkaResponse {
    var body: seq<byte>

    constructor ()
      ensures body == []
    {
      body := [];
    }

    /** Appends a varint with a loop that tests before each group; a negative number is refused and nothing appended.
        The bytes are those of `EncodeUnsigned`, which the current writer also produces. */
    method AppendVarInt(value: INT32) returns (ok: bool)
      modifies this
      ensures ok <==> value >= 0
      ensures body == if ok then old(body) + EncodeUnsigned(value) else old(body)
    {
      if value < 0 {
        return false;
      }
      var left := value;
      ghost var whole := body + EncodeUnsigned(value);
      while left >= 0x80
        invariant left >= 0 && body + EncodeUnsigned(left) == whole
        decreases left
      {
        body := body + [left % 128 + 128];
        left := left / 128;
      }
      body := body + [left];
      ok := true;
    }
  }

  /** The two encoders side by side append the same bytes exactly for the numbers that the older one takes; the current
      one writes a negative number as the 32-bit pattern it is cast to. */
  method TwoEncodersAgree(value: INT32) returns (legacy: seq<byte>, current: seq<byte>)
    ensures legacy == current <==> value >= 0
    ensures current == EncodeUnsigned(value % TWO_32)
  {
    var response := new KafkaResponse();
    var ok := response.AppendVarInt(value);
    var buffer := new WritableBuffer();
    WriteUnsignedVarint(buffer, value % TWO_32);
    legacy, current := response.body, buffer.bytes_;
  }
}
