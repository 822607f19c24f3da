/** The length-prefixed packets of SocketUtils.hpp: `create_packet` builds them,
    `PacketReader` cuts them out of a byte stream again, in place. */
module SocketUtils {
  import opened Bytes

  const HEADER_SIZE := 3
  const PACKET_LIMIT := 32 * 1024

  datatype Message = Message(kind: byte, payload: seq<byte>)

  // ---- the wire format ----

  /** The bytes of a packet: a 16-bit little-endian size that counts the header,
      the packet type, the payload.  The size field is an `unsigned short`, so it wraps. */
  function Frame(m: Message): seq<byte> {
    var size := (|m.payload| + HEADER_SIZE) % 0x1_0000;
    [size % 256, size / 256, m.kind] + m.payload
  }

  /** Byte by byte: the low and the high byte of the size, the type, the payload. */
  lemma FrameBytes(m: Message)
    ensures |Frame(m)| == |m.payload| + 3 && Frame(m)[2] == m.kind && Frame(m)[3..] == m.payload
    ensures Frame(m)[0] == (|m.payload| + 3) % 256 && Frame(m)[1] == ((|m.payload| + 3) / 256) % 256
  {
    LowBytes(|m.payload| + 3);
  }

  lemma LowBytes(x: nat)
    ensures (x % 0x1_0000) % 256 == x % 256 && (x % 0x1_0000) / 256 == (x / 256) % 256
  {
    var q, r := x / 0x1_0000, x % 0x1_0000;
    assert x == 256 * (256 * q + r / 256) + r % 256;
    assert x / 256 == 256 * q + r / 256;
  }

  function PacketSize(s: seq<byte>): (n: nat)
    requires |s| >= HEADER_SIZE
    ensures n < 0x1_0000
  {
    Le16(s[0], s[1])
  }

  /** What the receiver of a packet gets to see: its type and `getDataSize()` bytes. */
  function Unframe(p: seq<byte>): Message
    requires |p| >= HEADER_SIZE && HEADER_SIZE <= PacketSize(p) <= |p|
  {
    Message(p[2], p[HEADER_SIZE..PacketSize(p)])
  }

  function Frames(ms: seq<Message>): (r: seq<seq<byte>>)
    ensures |r| == |ms| && forall i :: 0 <= i < |ms| ==> r[i] == Frame(ms[i])
  {
    seq(|ms|, i requires 0 <= i < |ms| => Frame(ms[i]))
  }

  function Encode(ms: seq<Message>): seq<byte> {
    if ms == [] then [] else Frame(ms[0]) + Encode(ms[1..])
  }

  ghost predicate Fits(m: Message) {
    |m.payload| + HEADER_SIZE <= PACKET_LIMIT
  }

  /** The size field tells the truth exactly for payloads of at most 65532 bytes. */
  lemma SizeFieldExact(m: Message)
    ensures PacketSize(Frame(m)) == |Frame(m)| <==> |m.payload| <= 65532
  {
  }

  /** For those payloads, and no others, the receiver gets the message back. */
  lemma UnframeFrame(m: Message)
    ensures (HEADER_SIZE <= PacketSize(Frame(m)) <= |Frame(m)| && Unframe(Frame(m)) == m)
            <==> |m.payload| <= 65532
  {
  }

  // ---- cutting a byte stream into packets ----

  predicate HasPacket(s: seq<byte>) {
    |s| >= HEADER_SIZE && PacketSize(s) <= |s|
  }

  datatype Parse = Parse(packets: seq<seq<byte>>, rest: seq<byte>)

  /** Reading until no packet is left.  A size below 3, which is not one of a packet, stops it.  (The
      source would read on: for ever at size 0, and byte by byte or two at sizes 1 and 2.) */
  function Drain(s: seq<byte>): Parse {
    if HasPacket(s) && PacketSize(s) >= HEADER_SIZE then
      var k := PacketSize(s);
      var d := Drain(s[k..]);
      Parse([s[..k]] + d.packets, d.rest)
    else
      Parse([], s)
  }

  /** Draining after the arrival of every chunk. */
  function Feed(rest: seq<byte>, chunks: seq<seq<byte>>): Parse
    decreases chunks
  {
    if chunks == [] then Parse([], rest)
    else
      var d := Drain(rest + chunks[0]);
      var f := Feed(d.rest, chunks[1..]);
      Parse(d.packets + f.packets, f.rest)
  }

  /** Draining loses nothing: the packets and the rest are the input. */
  lemma {:induction false} DrainConserves(s: seq<byte>)
    ensures Flatten(Drain(s).packets) + Drain(s).rest == s
  {
    if HasPacket(s) && PacketSize(s) >= HEADER_SIZE {
      var a, b := s[..PacketSize(s)], s[PacketSize(s)..];
      DrainConserves(b);
      var d := Drain(b);
      FlattenCons(a, d.packets);
      Regroup(a, Flatten(d.packets), d.rest);
      assert s == a + b;
    }
  }

  lemma Regroup(a: seq<byte>, b: seq<byte>, c: seq<byte>)
    ensures a + (b + c) == (a + b) + c
  {
  }

  /** It leaves nothing to drain. */
  lemma {:induction false} RestIsDrained(s: seq<byte>)
    ensures Drain(Drain(s).rest) == Parse([], Drain(s).rest)
  {
    if HasPacket(s) && PacketSize(s) >= HEADER_SIZE {
      RestIsDrained(s[PacketSize(s)..]);
    }
  }

  /** Draining early does not change what is found. */
  lemma {:induction false} DrainAppend(a: seq<byte>, b: seq<byte>)
    ensures var early := Drain(a);
            var late := Drain(early.rest + b);
            Drain(a + b) == Parse(early.packets + late.packets, late.rest)
  {
    if HasPacket(a) && PacketSize(a) >= HEADER_SIZE {
      var k := PacketSize(a);
      DrainAppend(a[k..], b);
      var d := Drain(a[k..]);
      var late := Drain(d.rest + b);
      FirstPacket(a, b);
      assert [a[..k]] + (d.packets + late.packets) == ([a[..k]] + d.packets) + late.packets;
    }
  }

  lemma FirstPacket(a: seq<byte>, b: seq<byte>)
    requires HasPacket(a) && PacketSize(a) >= HEADER_SIZE
    ensures var k := PacketSize(a);
            var d := Drain(a[k..] + b);
            Drain(a + b) == Parse([a[..k]] + d.packets, d.rest)
  {
    var k := PacketSize(a);
    assert PacketSize(a + b) == k;
    assert (a + b)[..k] == a[..k] && (a + b)[k..] == a[k..] + b;
  }

  lemma DrainNothing(s: seq<byte>)
    requires Drain(s).packets == []
    ensures Drain(s) == Parse([], s)
  {
  }

  /** However a stream is cut into chunks, the same packets come out. */
  lemma {:induction false} ChunkingIrrelevant(rest: seq<byte>, chunks: seq<seq<byte>>)
    requires Drain(rest).packets == []
    ensures Feed(rest, chunks) == Drain(rest + Flatten(chunks))
    decreases chunks
  {
    if chunks == [] {
      assert rest + Flatten(chunks) == rest;
      DrainNothing(rest);
    } else {
      var s := rest + chunks[0];
      var tail := Flatten(chunks[1..]);
      assert rest + Flatten(chunks) == s + tail;
      RestIsDrained(s);
      DrainAppend(s, tail);
      ChunkingIrrelevant(Drain(s).rest, chunks[1..]);
    }
  }

  /** How many whole frames the first `n` bytes of `Encode(ms)` hold. */
  function WholeFrames(ms: seq<Message>, n: nat): (k: nat)
    ensures k <= |ms|
  {
    if ms == [] || n < |Frame(ms[0])| then 0
    else 1 + WholeFrames(ms[1..], n - |Frame(ms[0])|)
  }

  lemma {:induction false} WholeFramesAll(ms: seq<Message>)
    ensures WholeFrames(ms, |Encode(ms)|) == |ms|
  {
    if ms != [] { WholeFramesAll(ms[1..]); }
  }

  /** `d` is what a reader of the first `n` bytes of `Encode(ms)` should have found: the whole
      frames in order, and a strict prefix of the next one. */
  ghost predicate Found(ms: seq<Message>, n: nat, d: Parse) {
    var k := WholeFrames(ms, n);
    && d.packets == Frames(ms[..k])
    && (if k < |ms| then d.rest < Frame(ms[k]) else d.rest == [])
  }

  lemma FirstFrame(m: Message, s: seq<byte>, tail: seq<byte>)
    requires Fits(m)
    requires s <= Frame(m) + tail
    ensures HasPacket(s) <==> |Frame(m)| <= |s|
    ensures HasPacket(s) ==>
              PacketSize(s) == |Frame(m)| && s[..PacketSize(s)] == Frame(m) && s[PacketSize(s)..] <= tail
    ensures !HasPacket(s) ==> s < Frame(m)
  {
  }

  lemma {:induction false} DrainOfPrefix(ms: seq<Message>, s: seq<byte>)
    requires forall m :: m in ms ==> Fits(m)
    requires s <= Encode(ms)
    ensures Found(ms, |s|, Drain(s))
  {
    if ms != [] {
      assert Fits(ms[0]);
      FirstFrame(ms[0], s, Encode(ms[1..]));
      if HasPacket(s) {
        var f := Frame(ms[0]);
        DrainOfPrefix(ms[1..], s[|f|..]);
        FoundStep(ms, |s|, Drain(s[|f|..]));
      } else {
        assert Frames(ms[..0]) == [];
      }
    }
  }

  lemma FoundStep(ms: seq<Message>, n: nat, d: Parse)
    requires ms != [] && |Frame(ms[0])| <= n
    requires Found(ms[1..], n - |Frame(ms[0])|, d)
    ensures Found(ms, n, Parse([Frame(ms[0])] + d.packets, d.rest))
  {
  }

  /** The round trip: any chunks that make up a prefix of the encoding of `ms`
      yield exactly the frames that have arrived whole, in order, and keep back a strict
      prefix of the next; chunks that make up all of it yield all frames and keep nothing. */
  lemma RoundTrip(ms: seq<Message>, chunks: seq<seq<byte>>)
    requires forall m :: m in ms ==> Fits(m)
    requires Flatten(chunks) <= Encode(ms)
    ensures Found(ms, |Flatten(chunks)|, Feed([], chunks))
    ensures Flatten(chunks) == Encode(ms) ==> Feed([], chunks) == Parse(Frames(ms), [])
    ensures forall i :: 0 <= i < |Feed([], chunks).packets| ==>
              var p := Feed([], chunks).packets[i];
              HEADER_SIZE <= |p| == PacketSize(p) && Unframe(p) == ms[i]
  {
    ChunkingIrrelevant([], chunks);
    assert [] + Flatten(chunks) == Flatten(chunks);
    DrainOfPrefix(ms, Flatten(chunks));
    WholeFramesAll(ms);
    assert ms[..|ms|] == ms;
    var packets := Feed([], chunks).packets;
    forall i | 0 <= i < |packets|
      ensures HEADER_SIZE <= |packets[i]| == PacketSize(packets[i]) && Unframe(packets[i]) == ms[i]
    {
      assert packets[i] == Frame(ms[i]);
      assert Fits(ms[i]);
      SizeFieldExact(ms[i]);
      UnframeFrame(ms[i]);
    }
  }

  // ---- what the reader's fixed buffers can hold ----

  /** Every size field reached by draining lies between 3 and the limit. */
  ghost predicate WellFormed(s: seq<byte>) {
    |s| >= HEADER_SIZE ==>
      && HEADER_SIZE <= PacketSize(s) <= PACKET_LIMIT
      && (PacketSize(s) <= |s| ==> WellFormed(s[PacketSize(s)..]))
  }

  /** What is left after draining has no packet and is shorter than the limit. */
  lemma {:induction false} RestIsShort(s: seq<byte>)
    requires WellFormed(s)
    ensures |Drain(s).rest| < PACKET_LIMIT
    ensures !HasPacket(Drain(s).rest)
  {
    if HasPacket(s) {
      RestIsShort(s[PacketSize(s)..]);
    }
  }

  lemma {:induction false} WellFormedRest(a: seq<byte>, b: seq<byte>)
    ensures WellFormed(a + b) <==> WellFormed(a) && WellFormed(Drain(a).rest + b)
  {
    if |a| >= HEADER_SIZE {
      assert PacketSize(a + b) == PacketSize(a);
      if HasPacket(a) && PacketSize(a) >= HEADER_SIZE {
        assert (a + b)[PacketSize(a)..] == a[PacketSize(a)..] + b;
        WellFormedRest(a[PacketSize(a)..], b);
      }
    }
  }

  lemma {:induction false} EncodedIsWellFormed(ms: seq<Message>, s: seq<byte>)
    requires forall m :: m in ms ==> Fits(m)
    requires s <= Encode(ms)
    ensures WellFormed(s)
  {
    if |s| >= HEADER_SIZE {
      var f := Frame(ms[0]);
      SizeFieldExact(ms[0]);
      assert Fits(ms[0]);
      assert s[0] == f[0] && s[1] == f[1];
      if |s| >= |f| {
        assert s[|f|..] <= Encode(ms[1..]) by { assert Encode(ms)[|f|..] == Encode(ms[1..]); }
        EncodedIsWellFormed(ms[1..], s[|f|..]);
      }
    }
  }

  /** A packet whose size field is right is accepted exactly up to 32765 payload bytes, which are 32
      KB with the header. */
  lemma LimitExact(m: Message)
    requires |m.payload| <= 65532
    ensures WellFormed(Frame(m)) <==> |m.payload| <= 32765
    ensures Fits(m) <==> |m.payload| <= 32765
  {
    SizeFieldExact(m);
    assert Frame(m)[|Frame(m)|..] == [];
  }

  // ---- the code ----

  method CreatePacket(kind: byte, data: array?<byte>, size: nat) returns (packet: array<byte>)
    requires size > 0 ==> data != null && size <= data.Length
    ensures packet[..] == Frame(Message(kind, if size > 0 then data[..size] else []))
    ensures packet.Length == size + 3 && packet[2] == kind
    ensures packet[0] == (size + 3) % 256 && packet[1] == ((size + 3) / 256) % 256
    ensures fresh(packet)
  {
    packet := new byte[size + HEADER_SIZE];
    packet[2] := kind;
    var packetSize := (size + HEADER_SIZE) % 0x1_0000;
    packet[0], packet[1] := packetSize % 256, packetSize / 256;
    if size > 0 {
      CopyInto(data, 0, packet, HEADER_SIZE, size);
      assert packet[..] == packet[..3] + packet[3..3 + size];
    }
    LowBytes(size + HEADER_SIZE);
  }

  /** `packets` have been read of the stream that drains to `whole`, and `s` is unread. */
  ghost predicate Taken(whole: Parse, packets: seq<seq<byte>>, s: seq<byte>) {
    whole == Parse(packets + Drain(s).packets, Drain(s).rest)
  }

  lemma TakenOneMore(whole: Parse, packets: seq<seq<byte>>, s: seq<byte>, packet: seq<byte>, t: seq<byte>)
    requires Taken(whole, packets, s)
    requires Drain(s) == Parse([packet] + Drain(t).packets, Drain(t).rest)
    ensures Taken(whole, packets + [packet], t)
  {
    AppendAssociates(packets, [packet], Drain(t).packets);
  }

  class PacketReader {
    const buffer: array<byte>
    const data: array<byte>
    var size: nat

    ghost predicate Valid()
      reads this
    {
      && buffer != data
      && buffer.Length == 2 * PACKET_LIMIT
      && data.Length == PACKET_LIMIT + 4
      && size <= buffer.Length
    }

    ghost function Contents(): seq<byte>
      requires Valid()
      reads this, buffer
    {
      buffer[..size]
    }

    constructor ()
      ensures Valid() && Contents() == []
      ensures fresh(buffer) && fresh(data)
    {
      buffer := new byte[2 * PACKET_LIMIT];
      data := new byte[PACKET_LIMIT + 4];
      size := 0;
    }

    method Clear()
      requires Valid()
      modifies this
      ensures Valid() && Contents() == []
    {
      size := 0;
    }

    method Write(src: array<byte>, n: int)
      requires Valid() && src != buffer
      requires n <= src.Length && size + n <= buffer.Length
      modifies this, buffer
      ensures Valid()
      ensures Contents() == old(Contents()) + (if n > 0 then src[..n] else [])
    {
      if n <= 0 { return; }
      var tail := size;
      size := size + n;
      CopyInto(src, 0, buffer, tail, n);
      assert buffer[..size] == buffer[..tail] + buffer[tail..size];
    }

    method CanRead() returns (ok: bool)
      requires Valid()
      ensures ok == HasPacket(Contents())
    {
      if size < HEADER_SIZE { return false; }
      return Le16(buffer[0], buffer[1]) <= size;
    }

    /** Returns the data buffer holding the next packet, or null.  The packet has to fit
        the data buffer; the source does not check that. */
    method Read() returns (packet: array?<byte>)
      requires Valid()
      requires HasPacket(Contents()) ==> PacketSize(Contents()) <= data.Length
      modifies this, buffer, data
      ensures Valid()
      ensures packet == (if HasPacket(old(Contents())) then data else null)
      ensures packet != null ==>
                var k := PacketSize(old(Contents()));
                data[..k] == old(Contents())[..k] && Contents() == old(Contents())[k..]
      ensures packet == null ==> Contents() == old(Contents())
    {
      var ok := CanRead();
      if !ok { return null; }
      var packetSize := Le16(buffer[0], buffer[1]);
      CopyInto(buffer, 0, data, 0, packetSize);
      size := size - packetSize;
      if size > 0 {
        ShiftDown(buffer, packetSize, size);
      }
      return data;
    }

    /** Reads until nothing comes back. */
    method DrainAll() returns (packets: seq<seq<byte>>)
      requires Valid() && WellFormed(Contents())
      modifies this, buffer, data
      ensures Valid()
      ensures Parse(packets, Contents()) == Drain(old(Contents()))
    {
      packets := [];
      ghost var whole := Drain(Contents());
      while true
        invariant Valid() && WellFormed(Contents())
        invariant Taken(whole, packets, Contents())
        decreases size
      {
        ghost var s := Contents();
        var packet := ReadBytes();
        if packet == [] { break; }
        TakenOneMore(whole, packets, s, packet, Contents());
        packets := packets + [packet];
      }
    }

    /** One read of a well-formed stream: the bytes of the packet, or none. */
    method ReadBytes() returns (packet: seq<byte>)
      requires Valid() && WellFormed(Contents())
      modifies this, buffer, data
      ensures Valid() && WellFormed(Contents())
      ensures packet == [] ==> Contents() == old(Contents()) && Drain(Contents()) == Parse([], Contents())
      ensures packet != [] ==>
                var d := Drain(Contents());
                size < old(size) && Drain(old(Contents())) == Parse([packet] + d.packets, d.rest)
    {
      ghost var s := Contents();
      var p := Read();
      if p == null { return []; }
      assert data[..PacketSize(s)] == s[..PacketSize(s)];
      assert Le16(p[0], p[1]) == PacketSize(s);
      return p[..Le16(p[0], p[1])];
    }

    /** One arrival: write the chunk, then read until nothing comes back.  A well-formed
        stream never overruns either buffer. */
    method Receive(src: array<byte>, n: int) returns (packets: seq<seq<byte>>)
      requires Valid() && src != buffer && src != data
      requires n <= src.Length && n <= PACKET_LIMIT
      requires |Contents()| < PACKET_LIMIT
      requires WellFormed(Contents() + (if n > 0 then src[..n] else []))
      modifies this, buffer, data
      ensures Valid() && |Contents()| < PACKET_LIMIT
      ensures Parse(packets, Contents())
              == Drain(old(Contents()) + (if n > 0 then old(src[..n]) else []))
    {
      RestIsShort(Contents() + (if n > 0 then src[..n] else []));
      Write(src, n);
      packets := DrainAll();
    }
  }

  lemma ArrivalStep(ms: seq<Message>, chunks: seq<seq<byte>>, i: nat, arrived: seq<byte>)
    requires forall m :: m in ms ==> Fits(m)
    requires i < |chunks|
    requires arrived + Flatten(chunks[i..]) == Flatten(chunks) <= Encode(ms)
    ensures arrived + chunks[i] + Flatten(chunks[i + 1..]) == Flatten(chunks)
    ensures WellFormed(Drain(arrived).rest + chunks[i])
    ensures var d := Drain(Drain(arrived).rest + chunks[i]);
            Drain(arrived + chunks[i]) == Parse(Drain(arrived).packets + d.packets, d.rest)
  {
    var c := chunks[i];
    assert chunks[i..][1..] == chunks[i + 1..];
    assert arrived + (c + Flatten(chunks[i + 1..])) == (arrived + c) + Flatten(chunks[i + 1..]);
    EncodedIsWellFormed(ms, arrived + c);
    WellFormedRest(arrived, c);
    DrainAppend(arrived, c);
  }

  /** A whole session on a fresh reader, one arrival per chunk: `packets` are the frames that
      arrived whole, in order. */
  method DeliverStream(chunks: seq<seq<byte>>, ghost ms: seq<Message>) returns (packets: seq<seq<byte>>)
    requires forall m :: m in ms ==> Fits(m)
    requires forall c :: c in chunks ==> |c| <= PACKET_LIMIT
    requires Flatten(chunks) <= Encode(ms)
    ensures packets == Frames(ms[..WholeFrames(ms, |Flatten(chunks)|)])
  {
    var reader := new PacketReader();
    packets := [];
    ghost var arrived: seq<byte> := [];
    assert chunks[0..] == chunks;
    for i := 0 to |chunks|
      invariant reader.Valid() && fresh(reader) && fresh(reader.buffer) && fresh(reader.data)
      invariant |reader.Contents()| < PACKET_LIMIT
      invariant arrived + Flatten(chunks[i..]) == Flatten(chunks)
      invariant Drain(arrived) == Parse(packets, reader.Contents())
    {
      var more := ReceiveChunk(reader, chunks[i], ms, chunks, i, arrived);
      packets := packets + more;
      arrived := arrived + chunks[i];
    }
    assert chunks[|chunks|..] == [];
    assert arrived == Flatten(chunks);
    DrainOfPrefix(ms, arrived);
  }

  method ReceiveChunk(reader: PacketReader, c: seq<byte>, ghost ms: seq<Message>,
                      ghost chunks: seq<seq<byte>>, ghost i: nat, ghost arrived: seq<byte>)
    returns (packets: seq<seq<byte>>)
    requires forall m :: m in ms ==> Fits(m)
    requires i < |chunks| && chunks[i] == c && |c| <= PACKET_LIMIT
    requires arrived + Flatten(chunks[i..]) == Flatten(chunks) <= Encode(ms)
    requires reader.Valid() && |reader.Contents()| < PACKET_LIMIT
    requires Drain(arrived).rest == reader.Contents()
    modifies reader, reader.buffer, reader.data
    ensures reader.Valid() && |reader.Contents()| < PACKET_LIMIT
    ensures Drain(arrived + c) == Parse(Drain(arrived).packets + packets, reader.Contents())
    ensures arrived + c + Flatten(chunks[i + 1..]) == Flatten(chunks)
  {
    ArrivalStep(ms, chunks, i, arrived);
    var src := new byte[|c|](k requires 0 <= k < |c| => c[k]);
    assert src[..|c|] == c;
    assert (if |c| > 0 then src[..|c|] else []) == c;
    packets := reader.Receive(src, |c|);
  }
}
