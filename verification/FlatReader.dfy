/** The byte FIFO of PacketReader.hpp: one flat array that is shifted down after every read. */
module FlatReader {
  import opened Bytes

  const BUFFER_SIZE := 1024 * 1024

  class PacketReader {
    const buffer: array<byte>
    const data: array<byte>
    var size: nat

    ghost predicate Valid()
      reads this
    {
      buffer != data && buffer.Length == data.Length == BUFFER_SIZE && size <= BUFFER_SIZE
    }

    ghost function Contents(): seq<byte>
      requires Valid()
      reads this, buffer
    {
      buffer[..size]
    }

    constructor ()
      ensures Valid() && Contents() == [] && fresh(buffer) && fresh(data)
      ensures buffer.Length == data.Length == 1048576
    {
      buffer := new byte[BUFFER_SIZE];
      data := new byte[BUFFER_SIZE];
      size := 0;
    }

    method Clear()
      requires Valid()
      modifies this
      ensures Valid() && Contents() == []
    {
      size := 0;
    }

    /** There is no check in the source that the bytes fit. */
    method Write(src: array<byte>, n: nat)
      requires Valid() && src != buffer && n <= src.Length && size + n <= BUFFER_SIZE
      modifies this, buffer
      ensures Valid() && Contents() == old(Contents()) + src[..n]
    {
      var tail := size;
      size := size + n;
      CopyInto(src, 0, buffer, tail, n);
      assert buffer[..size] == buffer[..tail] + buffer[tail..size];
    }

    method CanRead(n: nat) returns (ok: bool)
      requires Valid()
      ensures ok <==> n <= |Contents()|
    {
      return size >= n;
    }

    method Read(n: nat) returns (result: array?<byte>)
      requires Valid()
      modifies this, buffer, data
      ensures Valid()
      ensures result == if n <= |old(Contents())| then data else null
      ensures result == null ==> Contents() == old(Contents())
      ensures result != null ==> data[..n] == old(Contents())[..n] && Contents() == old(Contents())[n..]
    {
      var ok := CanRead(n);
      if !ok { return null; }
      CopyInto(buffer, 0, data, 0, n);
      size := size - n;
      if size > 0 {
        ShiftDown(buffer, n, size);
      }
      return data;
    }
  }
}
