/** The byte FIFO of MemoryBuffer.hpp: a queue of chunks, each read from its front. */
module MemoryBuffer {
  import opened Bytes

  /** A chunk.  Its bytes are copied once and never written again. */
  class Buffer {
    const data: seq<byte>
    var offset: nat
    var size: nat

    ghost predicate Valid()
      reads this
    {
      offset + size <= |data|
    }

    ghost function Unread(): (s: seq<byte>)
      requires Valid()
      reads this
      ensures |s| == size
    {
      data[offset..offset + size]
    }

    constructor (src: array<byte>, n: nat)
      requires n <= src.Length
      ensures Valid() && Unread() == src[..n]
    {
      data, offset, size := src[..n], 0, n;
    }

    /** Moves up to `n` bytes to `dst`. */
    method Read(dst: array<byte>, at: nat, n: nat) returns (copied: nat)
      requires Valid() && at + n <= dst.Length
      modifies this, dst
      ensures Valid() && copied == if n < old(size) then n else old(size)
      ensures Unread() == old(Unread())[copied..]
      ensures dst[..at + copied] == old(dst[..at]) + old(Unread())[..copied]
      ensures dst[at + copied..] == old(dst[at + copied..])
    {
      if size <= 0 {
        assert Unread()[..0] == [];
        return 0;
      }
      copied := n;
      if copied > size { copied := size; }
      size := size - copied;
      assert data[offset..offset + copied] == old(Unread())[..copied];
      Fill(dst, at, data[offset..offset + copied]);
      offset := offset + copied;
    }
  }

  /** All unread bytes of a queue of chunks, front first. */
  ghost function Unread(queue: seq<Buffer>): seq<byte>
    requires forall b <- queue :: b.Valid()
    reads queue
  {
    if queue == [] then [] else queue[0].Unread() + Unread(queue[1..])
  }

  ghost predicate Distinct(queue: seq<Buffer>) {
    forall i, j :: 0 <= i < j < |queue| ==> queue[i] != queue[j]
  }

  lemma {:induction false} UnreadAppend(q: seq<Buffer>, b: Buffer)
    requires (forall c <- q :: c.Valid()) && b.Valid()
    ensures Unread(q + [b]) == Unread(q) + b.Unread()
  {
    if q == [] {
      assert (q + [b])[1..] == [];
    } else {
      UnreadAppend(q[1..], b);
      assert (q + [b])[1..] == q[1..] + [b];
    }
  }

  lemma SkipEmpty(q: seq<Buffer>)
    requires q != [] && (forall b <- q :: b.Valid()) && q[0].Unread() == []
    ensures Unread(q[1..]) == Unread(q)
  {
  }

  lemma Regroup(a: seq<byte>, b: seq<byte>, k: nat)
    requires k <= |b|
    ensures a + b == (a + b[..k]) + b[k..]
  {
  }

  class MemoryBuffer {
    var size: nat
    var queue: seq<Buffer>
    ghost var repr: set<Buffer> // every chunk in the queue, and perhaps some that were dropped

    /** All chunks are separate objects. */
    ghost predicate Chunks()
      reads this, repr
    {
      (forall i :: 0 <= i < |queue| ==> queue[i] in repr && queue[i].Valid()) && Distinct(queue)
    }

    ghost function Contents(): seq<byte>
      requires Chunks()
      reads this, repr
    {
      Unread(queue)
    }

    /** The size field is the number of unread bytes. */
    ghost predicate Valid()
      reads this, repr
    {
      Chunks() && size == |Contents()|
    }

    constructor ()
      ensures Valid() && Contents() == [] && repr == {}
    {
      size, queue, repr := 0, [], {};
    }

    method Clear()
      modifies this
      ensures Valid() && Contents() == [] && repr == old(repr)
    {
      while queue != []
        invariant repr == old(repr)
        decreases |queue|
      {
        queue := queue[1..];
      }
      size := 0;
    }

    method Write(src: array<byte>, n: nat)
      requires Valid() && n <= src.Length
      modifies this
      ensures Valid() && Contents() == old(Contents()) + src[..n]
      ensures old(repr) <= repr && fresh(repr - old(repr))
    {
      var b := new Buffer(src, n);
      UnreadAppend(queue, b);
      queue := queue + [b];
      repr := repr + {b};
      size := size + n;
    }

    /** Null exactly if fewer than `n` bytes are unread; otherwise the next `n` of them, which may
        come from many chunks.  Reading no bytes throws every chunk away but keeps the size, so it
        leaves the buffer in order only when there was nothing in it. */
    method Read(n: nat) returns (result: array?<byte>)
      requires Valid()
      modifies this`size, this`queue, repr
      ensures result == null <==> n > |old(Contents())|
      ensures result == null ==> Valid() && Contents() == old(Contents())
      ensures result != null ==> fresh(result) && result.Length == n
      ensures result != null && n > 0 ==>
                && Valid()
                && result[..] == old(Contents())[..n] && Contents() == old(Contents())[n..]
      ensures n == 0 ==> queue == [] && size == old(size)
      ensures Valid() <==> n > 0 || old(size) == 0
    {
      if n > size { return null; }
      size := size - n;
      result := new byte[n];
      CopyOut(result);
    }

    /** The loop: moves bytes from the chunks until `result` is full. */
    method CopyOut(result: array<byte>)
      requires Chunks() && result.Length <= |Contents()|
      modifies this`queue, repr, result
      ensures Chunks()
      ensures result.Length > 0 ==> result[..] + Contents() == old(Contents())
      ensures result.Length == 0 ==> queue == []
    {
      ghost var all, n := Contents(), result.Length;
      var left: nat, offset: nat := result.Length, 0;
      while queue != []
        invariant offset + left == n && Chunks()
        invariant left > 0 || n == 0
        invariant n > 0 ==> result[..offset] + Contents() == all
        decreases |queue|, left
      {
        var copied := Turn(result, offset, left);
        if copied <= 0 { continue; }
        left := left - copied;
        offset := offset + copied;
        if left <= 0 { break; }
      }
      assert n > 0 ==> left == 0;
      assert result[..n] == result[..];
    }

    /** One turn of the loop: bytes from the front chunk, or the front chunk dropped. */
    method Turn(result: array<byte>, offset: nat, left: nat) returns (copied: nat)
      requires Chunks() && queue != [] && offset + left <= result.Length
      modifies this`queue, repr, result
      ensures Chunks() && copied <= left
      ensures queue == if copied == 0 then old(queue)[1..] else old(queue)
      ensures left > 0 ==> result[..offset + copied] + Contents() == old(result[..offset] + Contents())
    {
      ghost var before, now := result[..offset], Contents();
      copied := ReadFront(result, offset, left);
      Regroup(before, now, copied);
      if copied <= 0 {
        if left > 0 { SkipEmpty(queue); }
        ghost var rest := Unread(queue[1..]);
        queue := queue[1..];
        assert Unread(queue) == rest;
      }
    }

    method ReadFront(result: array<byte>, offset: nat, left: nat) returns (copied: nat)
      requires Chunks() && queue != [] && offset + left <= result.Length
      modifies queue[0], result
      ensures Chunks() && copied <= left && copied <= |old(Contents())|
      ensures Contents() == old(Contents())[copied..]
      ensures result[..offset + copied] == old(result[..offset]) + old(Contents())[..copied]
      ensures copied == 0 && left > 0 ==> queue[0].Unread() == []
    {
      ghost var rest, front := Unread(queue[1..]), queue[0].Unread();
      assert queue[0] !in queue[1..];
      copied := queue[0].Read(result, offset, left);
      assert Unread(queue[1..]) == rest;
      assert (front + rest)[copied..] == front[copied..] + rest;
      assert front[..copied] == (front + rest)[..copied];
    }
  }
}
