/** The asynchronous server of SocketServer.hpp.  Each connection reads a header, then a body,
    then the next header; the server keeps a list of raw pointers to the connections it has
    announced.  All handlers run on the thread that runs the io context, one at a time, so
    each handler is a method and a run of the server is any sequence of calls. */
module SocketServer {
  import opened Bytes
  import opened SocketUtils

  const UINT_RANGE := 0x1_0000_0000

  /** An `async_read` that has not completed: where its bytes go, how many, and its handler. */
  datatype Read = Header | Body(count: nat) {
    function Offset(): nat { if Header? then 0 else HEADER_SIZE }
    function Count(): nat { if Header? then HEADER_SIZE else count }
  }

  class Connection {
    const packet: array<byte>
    var id: nat
    var isConnected: bool
    var readsInFlight: seq<Read>   // reads in flight; each of their handlers owns a shared_ptr
    var writesInFlight: nat        // writes in flight; so do theirs
    var received: seq<seq<byte>> // the packets given to fire_received_event so far
    ghost var ordinal: nat // how many connections were announced before this one
    ghost var stream: seq<byte>          // the bytes that completed reads took from the socket

    constructor ()
      ensures fresh(packet) && packet.Length == 2 * PACKET_LIMIT
      ensures !isConnected && readsInFlight == [] && writesInFlight == 0
      ensures stream == [] && received == []
    {
      packet := new byte[2 * PACKET_LIMIT];
      id, isConnected, readsInFlight, writesInFlight := 0, false, [], 0;
      ordinal, stream, received := 0, [], [];
    }

    /** The packets handed on, put together, are the stream, except for the header already in
        the buffer when the read in flight is for a body of the size it gives. */
    ghost predicate InStep()
      reads this, packet
    {
      && packet.Length == 2 * PACKET_LIMIT
      && (forall p <- received :: IsPacket(p))
      && (readsInFlight != [] ==>
            && |readsInFlight| == 1
            && readsInFlight[0].Offset() + readsInFlight[0].Count() <= packet.Length
            && stream == Flatten(received) + packet[..readsInFlight[0].Offset()]
            && (readsInFlight[0].Body? ==>
                  HEADER_SIZE + readsInFlight[0].count == PacketSize(packet[..HEADER_SIZE])))
    }

    /** Some operation in flight still holds a shared_ptr to the connection. */
    ghost predicate Alive()
      reads this
    {
      readsInFlight != [] || writesInFlight > 0
    }
  }

  predicate IsPacket(p: seq<byte>) {
    HEADER_SIZE <= |p| == PacketSize(p)
  }

  /** `list::remove`: every occurrence goes. */
  function Without(cs: seq<Connection>, c: Connection): (r: seq<Connection>)
    ensures c !in r
    ensures forall d <- r :: d in cs
    ensures forall d <- cs :: d != c ==> d in r
    ensures c !in cs ==> r == cs
  {
    if cs == [] then [] else
      (if cs[0] == c then [] else [cs[0]]) + Without(cs[1..], c)
  }

  ghost predicate InOrder(cs: seq<Connection>)
    reads cs
  {
    forall i, j :: 0 <= i < j < |cs| ==> cs[i].ordinal < cs[j].ordinal
  }

  lemma {:induction false} WithoutInOrder(cs: seq<Connection>, c: Connection)
    requires InOrder(cs)
    ensures InOrder(Without(cs, c))
  {
    if cs != [] {
      var tail := cs[1..];
      assert InOrder(tail);
      WithoutInOrder(tail, c);
      assert forall d :: d in tail ==> cs[0].ordinal < d.ordinal;
    }
  }

  lemma FlattenMore(ps: seq<seq<byte>>, p: seq<byte>)
    ensures Flatten(ps + [p]) == Flatten(ps) + p
  {
    FlattenAppend(ps, [p]);
  }

  lemma {:induction false} DrainFlatten(ps: seq<seq<byte>>)
    requires forall p <- ps :: IsPacket(p)
    ensures Drain(Flatten(ps)) == Parse(ps, [])
  {
    if ps != [] {
      var p, tail := ps[0], Flatten(ps[1..]);
      assert IsPacket(p);
      DrainFlatten(ps[1..]);
      var s := p + tail;
      assert PacketSize(s) == PacketSize(p) && s[..|p|] == p && s[|p|..] == tail;
    }
  }

  class SocketServer {
    var nextId: nat
    var connectionList: seq<Connection>
    ghost var announced: seq<Connection> // every connection ever started, in order

    ghost predicate Member(c: Connection)
      reads this, c, c.packet
    {
      && c.ordinal < |announced| && announced[c.ordinal] == c
      && c.id == c.ordinal % UINT_RANGE
      && c.InStep()
      && (c.isConnected <==> c in connectionList)
      && (c.isConnected ==> |c.readsInFlight| == 1)
    }

    ghost predicate Valid()
      reads this, announced, set c <- announced :: c.packet
    {
      && nextId == |announced| % UINT_RANGE
      && (forall c :: c in announced ==> Member(c))
      && (forall c, d :: c in announced && d in announced && c != d ==> c.packet != d.packet)
      && (forall i :: 0 <= i < |connectionList| ==> connectionList[i] in announced)
      && InOrder(connectionList)
    }

    constructor ()
      ensures Valid() && announced == [] && connectionList == []
    {
      nextId, connectionList, announced := 0, [], [];
    }

    method HandleAccept(error: bool) returns (c: Connection)
      requires Valid()
      modifies this
      ensures Valid() && fresh(c) && fresh(c.packet)
      ensures error ==> announced == old(announced) && connectionList == old(connectionList)
      ensures !error ==>
                && announced == old(announced) + [c] && connectionList == old(connectionList) + [c]
                && c.readsInFlight == [Header] && c.isConnected && c.stream == [] && c.InStep()
                && c.id == old(nextId) && nextId == if c.id == 4294967295 then 0 else c.id + 1
    {
      c := new Connection();
      if !error {
        FireConnected(c);
        c.readsInFlight := c.readsInFlight + [Header];
        assert c.packet[..0] == [];
        AddsMember(c);
      }
    }

    method FireConnected(c: Connection)
      requires c !in announced && c !in connectionList
      modifies this, c
      ensures c.id == old(nextId) && c.isConnected && c.ordinal == |old(announced)|
      ensures c.readsInFlight == old(c.readsInFlight) && c.writesInFlight == old(c.writesInFlight)
      ensures c.stream == old(c.stream) && c.received == old(c.received)
      ensures nextId == (old(nextId) + 1) % UINT_RANGE
      ensures connectionList == old(connectionList) + [c] && announced == old(announced) + [c]
    {
      c.id, c.isConnected := nextId, true;
      nextId := (nextId + 1) % UINT_RANGE;
      connectionList := connectionList + [c];
      c.ordinal, announced := |announced|, announced + [c];
    }

    method FireDisconnected(c: Connection)
      modifies this`connectionList, c`isConnected
      ensures !c.isConnected && connectionList == Without(old(connectionList), c)
    {
      c.isConnected := false;
      connectionList := Without(connectionList, c);
    }

    method HandleReadHeader(c: Connection, error: bool)
      requires c.packet.Length == 2 * PACKET_LIMIT
      requires !error ==> PacketSize(c.packet[..HEADER_SIZE]) >= HEADER_SIZE
      modifies this`connectionList, c`isConnected, c`readsInFlight
      ensures var oversize := !error && PacketSize(c.packet[..HEADER_SIZE]) > PACKET_LIMIT;
              && c.isConnected == (old(c.isConnected) && !error && !oversize)
              && connectionList == (if error || oversize then Without(old(connectionList), c) else old(connectionList))
      ensures c.readsInFlight ==
              if error then old(c.readsInFlight)
              else old(c.readsInFlight) + [Body(PacketSize(c.packet[..HEADER_SIZE]) - HEADER_SIZE)]
    {
      if !error {
        var packetSize := Le16(c.packet[0], c.packet[1]);
        if packetSize > PACKET_LIMIT {
          FireDisconnected(c);
        }
        c.readsInFlight := c.readsInFlight + [Body(packetSize - HEADER_SIZE)];
      } else {
        FireDisconnected(c);
      }
    }

    method HandleReadBody(c: Connection, error: bool)
      requires c.packet.Length >= HEADER_SIZE && PacketSize(c.packet[..HEADER_SIZE]) <= c.packet.Length
      modifies this`connectionList, c`isConnected, c`readsInFlight, c`received
      ensures c.isConnected == (old(c.isConnected) && !error)
      ensures connectionList == if error then Without(old(connectionList), c) else old(connectionList)
      ensures var p := c.packet[..PacketSize(c.packet[..HEADER_SIZE])];
              c.received == if error then old(c.received) else old(c.received) + [p]
      ensures c.readsInFlight == if error then old(c.readsInFlight) else old(c.readsInFlight) + [Header]
    {
      if !error {
        var p := c.packet[..Le16(c.packet[0], c.packet[1])];
        c.received := c.received + [p];
        c.readsInFlight := c.readsInFlight + [Header];
      } else {
        FireDisconnected(c);
      }
    }

    /** The io layer completes the read in flight of `c` with `bytes` and calls its handler.
        A size field below 3 would make the body's length negative. */
    method CompleteRead(c: Connection, bytes: seq<byte>)
      requires Valid() && c in announced && c.readsInFlight != []
      requires |bytes| == c.readsInFlight[0].Count()
      requires c.readsInFlight[0].Header? ==> PacketSize(bytes) >= HEADER_SIZE
      modifies this`connectionList, c, c.packet
      ensures Valid() && |c.readsInFlight| == 1
      ensures c.readsInFlight[0].Header? <==> old(c.readsInFlight[0]).Body?
      ensures c.stream == old(c.stream) + bytes
      ensures c.isConnected == (old(c.isConnected) &&
                                (old(c.readsInFlight[0]).Header? ==> PacketSize(bytes) <= PACKET_LIMIT))
      ensures connectionList == if c.isConnected then old(connectionList) else Without(old(connectionList), c)
    {
      assert Member(c);
      if c.readsInFlight[0].Header? {
        CompleteHeader(c, bytes);
      } else {
        CompleteBody(c, bytes);
      }
      KeepsMembers(c);
    }

    method CompleteHeader(c: Connection, bytes: seq<byte>)
      requires c.InStep() && c.readsInFlight == [Header]
      requires |bytes| == HEADER_SIZE <= PacketSize(bytes)
      modifies this`connectionList, c`isConnected, c`readsInFlight, c`stream, c.packet
      ensures c.InStep() && |c.readsInFlight| == 1 && c.readsInFlight[0].Body?
      ensures c.stream == old(c.stream) + bytes
      ensures c.isConnected == (old(c.isConnected) && PacketSize(bytes) <= PACKET_LIMIT)
      ensures connectionList ==
              if PacketSize(bytes) <= PACKET_LIMIT then old(connectionList) else Without(old(connectionList), c)
    {
      Fill(c.packet, 0, bytes);
      c.readsInFlight, c.stream := [], c.stream + bytes;
      assert c.packet[..HEADER_SIZE] == bytes;
      HandleReadHeader(c, false);
    }

    method CompleteBody(c: Connection, bytes: seq<byte>)
      requires c.InStep() && |c.readsInFlight| == 1 && c.readsInFlight[0].Body?
      requires |bytes| == c.readsInFlight[0].count
      modifies this`connectionList, c`isConnected, c`readsInFlight, c`stream, c`received, c.packet
      ensures c.InStep() && c.readsInFlight == [Header]
      ensures c.stream == old(c.stream) + bytes
      ensures c.isConnected == old(c.isConnected) && connectionList == old(connectionList)
    {
      ghost var header := c.packet[..HEADER_SIZE];
      Fill(c.packet, HEADER_SIZE, bytes);
      ghost var p := header + bytes;
      assert c.packet[..|p|] == p && c.packet[..HEADER_SIZE] == p[..HEADER_SIZE] == header;
      FlattenMore(c.received, p);
      assert c.packet[..0] == [];
      c.readsInFlight, c.stream := [], c.stream + bytes;
      assert c.stream == Flatten(c.received) + p;
      HandleReadBody(c, false);
    }

    /** The io layer fails the read in flight. */
    method FailRead(c: Connection)
      requires Valid() && c in announced && c.readsInFlight != []
      modifies this`connectionList, c`isConnected, c`readsInFlight, c`received
      ensures Valid() && c.readsInFlight == [] && !c.isConnected
      ensures c.received == old(c.received)
      ensures connectionList == Without(old(connectionList), c)
    {
      assert Member(c);
      if c.readsInFlight[0].Header? {
        FailHeader(c);
      } else {
        FailBody(c);
      }
      Disconnected(c);
    }

    method FailHeader(c: Connection)
      requires c.packet.Length == 2 * PACKET_LIMIT && c.readsInFlight == [Header]
      modifies this`connectionList, c`isConnected, c`readsInFlight
      ensures c.readsInFlight == [] && !c.isConnected && connectionList == Without(old(connectionList), c)
    {
      c.readsInFlight := [];
      HandleReadHeader(c, true);
    }

    method FailBody(c: Connection)
      requires c.packet.Length >= HEADER_SIZE && PacketSize(c.packet[..HEADER_SIZE]) <= c.packet.Length
      requires |c.readsInFlight| == 1
      modifies this`connectionList, c`isConnected, c`readsInFlight, c`received
      ensures c.readsInFlight == [] && !c.isConnected && connectionList == Without(old(connectionList), c)
      ensures c.received == old(c.received)
    {
      c.readsInFlight := [];
      HandleReadBody(c, true);
    }

    twostate lemma Disconnected(c: Connection)
      requires old(Valid()) && c in announced && announced == old(announced) && nextId == old(nextId)
      requires connectionList == Without(old(connectionList), c) && !c.isConnected
      requires forall d <- announced :: d != c ==> unchanged(d)
      requires forall d <- announced :: unchanged(d.packet)
      requires c.ordinal == old(c.ordinal) && c.id == old(c.id)
      requires c.received == old(c.received) && c.stream == old(c.stream)
      requires c.readsInFlight == [] || c.readsInFlight == old(c.readsInFlight)
      ensures Valid()
    {
      assert old(Member(c));
      assert c.InStep();
      KeepsMembers(c);
    }

    method Send(c: Connection)
      requires Valid() && c in announced
      modifies c`writesInFlight
      ensures Valid() && c.writesInFlight == old(c.writesInFlight) + 1
    {
      assert Member(c);
      c.writesInFlight := c.writesInFlight + 1;
      KeepsMembers(c);
    }

    method SendToAll()
      requires Valid()
      modifies connectionList
      ensures Valid() && connectionList == old(connectionList)
      ensures forall c <- connectionList :: c.writesInFlight == old(c.writesInFlight) + 1
      ensures forall c <- connectionList :: c.received == old(c.received) && c.readsInFlight == old(c.readsInFlight)
    {
      var i := 0;
      while i < |connectionList|
        invariant i <= |connectionList| && Valid() && unchanged(this)
        invariant forall k :: 0 <= k < |connectionList| ==>
                    connectionList[k].writesInFlight
                    == old(connectionList[k].writesInFlight) + (if k < i then 1 else 0)
        invariant forall c <- connectionList ::
                    c.received == old(c.received) && c.readsInFlight == old(c.readsInFlight)
      {
        assert forall k :: 0 <= k < |connectionList| && k != i ==> connectionList[k] != connectionList[i];
        Send(connectionList[i]);
        i := i + 1;
      }
    }

    method HandleWrite(c: Connection, error: bool)
      requires Valid() && c in announced && c.writesInFlight > 0
      modifies this`connectionList, c`writesInFlight, c`isConnected
      ensures Valid() && c.writesInFlight == old(c.writesInFlight) - 1
      ensures c.isConnected == (old(c.isConnected) && !error)
      ensures connectionList == if error then Without(old(connectionList), c) else old(connectionList)
    {
      assert Member(c);
      c.writesInFlight := c.writesInFlight - 1;
      if error {
        FireDisconnected(c);
        Disconnected(c);
      } else {
        KeepsMembers(c);
      }
    }

    twostate lemma AddsMember(new c: Connection)
      requires old(Valid()) && fresh(c) && fresh(c.packet)
      requires announced == old(announced) + [c] && connectionList == old(connectionList) + [c]
      requires nextId == (old(nextId) + 1) % UINT_RANGE
      requires forall d <- old(announced) :: unchanged(d) && unchanged(d.packet)
      requires c.ordinal == |old(announced)| && c.isConnected && |c.readsInFlight| == 1
      requires c.id == old(nextId) && c.InStep()
      ensures Valid()
    {
      assert Member(c);
      forall d <- old(announced) ensures Member(d) && d.ordinal < c.ordinal {
        assert old(Member(d));
      }
      forall i, j | 0 <= i < j < |connectionList|
        ensures connectionList[i].ordinal < connectionList[j].ordinal
      {
        assert connectionList[i] == old(connectionList)[i];
        assert old(connectionList[i]) in old(announced);
        if j < |old(connectionList)| {
          assert old(connectionList[i].ordinal < connectionList[j].ordinal);
          assert old(connectionList[j]) in old(announced);
        }
      }
    }

    /** A handler that has only touched `c` and the list leaves the other connections as they were. */
    twostate lemma KeepsMembers(c: Connection)
      requires old(Valid()) && c in announced && announced == old(announced) && nextId == old(nextId)
      requires connectionList == old(connectionList) || connectionList == Without(old(connectionList), c)
      requires forall d <- announced :: d != c ==> unchanged(d) && unchanged(d.packet)
      requires c.ordinal == old(c.ordinal)
      requires Member(c)
      ensures Valid()
    {
      forall d <- announced ensures Member(d) {
        assert old(Member(d));
      }
      assert old(InOrder(connectionList));
      assert forall d <- old(connectionList) :: d.ordinal == old(d.ordinal);
      assert InOrder(old(connectionList));
      WithoutInOrder(old(connectionList), c);
      forall i | 0 <= i < |connectionList| ensures connectionList[i] in announced {
        assert connectionList[i] in old(connectionList);
      }
    }
  }

  /** What the list means in every state of every run: no duplicates; exactly the announced
      connections still flagged connected, each with exactly one read in flight, so that no
      pointer in the list dangles; in the order they were announced, which is the order of
      strictly increasing ids until the id counter wraps. */
  lemma ListInvariant(server: SocketServer)
    requires server.Valid()
    ensures forall c <- server.announced :: c in server.connectionList <==> c.isConnected
    ensures forall c <- server.connectionList ::
              c in server.announced && |c.readsInFlight| == 1 && c.Alive()
    ensures forall i, j :: 0 <= i < j < |server.connectionList| ==>
              server.connectionList[i] != server.connectionList[j]
    ensures |server.announced| <= UINT_RANGE ==>
              forall i, j :: 0 <= i < j < |server.connectionList| ==>
                server.connectionList[i].id < server.connectionList[j].id
  {
  }

  /** As long as the bytes that have arrived do not complete the read in flight, the packets
      handed on are those a drained `PacketReader` would have returned for all of them. */
  lemma StarvedAgreesWithReader(c: Connection, partial: seq<byte>)
    requires c.InStep() && c.readsInFlight != [] && |partial| < c.readsInFlight[0].Count()
    ensures Drain(c.stream + partial)
            == Parse(c.received, c.packet[..c.readsInFlight[0].Offset()] + partial)
  {
    var head := c.packet[..c.readsInFlight[0].Offset()];
    AppendAssociates(Flatten(c.received), head, partial);
    assert !HasPacket(head + partial) by {
      if c.readsInFlight[0].Body? {
        SizeOfHead(c.packet[..HEADER_SIZE], partial);
      }
    }
    DrainFlattenAnd(c.received, head + partial);
  }

  lemma SizeOfHead(head: seq<byte>, more: seq<byte>)
    requires |head| == HEADER_SIZE
    ensures PacketSize(head + more) == PacketSize(head)
  {
  }

  lemma DrainFlattenAnd(ps: seq<seq<byte>>, rest: seq<byte>)
    requires (forall p <- ps :: IsPacket(p)) && !HasPacket(rest)
    ensures Drain(Flatten(ps) + rest) == Parse(ps, rest)
  {
    DrainFlatten(ps);
    DrainAppend(Flatten(ps), rest);
    assert [] + rest == rest;
  }

  /** No size field reached by draining is below 3. */
  ghost predicate NoTinySize(s: seq<byte>) {
    |s| >= HEADER_SIZE ==>
      && HEADER_SIZE <= PacketSize(s)
      && (PacketSize(s) <= |s| ==> NoTinySize(s[PacketSize(s)..]))
  }

  lemma {:induction false} NoTinySizeAfter(a: seq<byte>, b: seq<byte>)
    requires NoTinySize(a + b)
    ensures NoTinySize(Drain(a).rest + b)
  {
    if |a| >= HEADER_SIZE {
      assert PacketSize(a + b) == PacketSize(a);
      if HasPacket(a) {
        assert (a + b)[PacketSize(a)..] == a[PacketSize(a)..] + b;
        NoTinySizeAfter(a[PacketSize(a)..], b);
      }
    }
  }

  lemma WellFormedFlattenAnd(ps: seq<seq<byte>>, rest: seq<byte>)
    requires forall p <- ps :: IsPacket(p)
    ensures WellFormed(Flatten(ps) + rest) <==> WellFormed(Flatten(ps)) && WellFormed(rest)
  {
    DrainFlatten(ps);
    WellFormedRest(Flatten(ps), rest);
    assert [] + rest == rest;
  }

  lemma WellFormedBody(head: seq<byte>, more: seq<byte>)
    requires |head| == HEADER_SIZE <= PacketSize(head) && HEADER_SIZE + |more| <= PacketSize(head)
    ensures WellFormed(head) <==> PacketSize(head) <= PACKET_LIMIT
    ensures WellFormed(head + more) <==> WellFormed(head)
  {
  }

  /** `more` bytes for the read in flight keep the stream well-formed, unless they are a header
      with a size beyond the limit. */
  lemma GrowWellFormed(c: Connection, more: seq<byte>)
    requires c.InStep() && c.readsInFlight != [] && |more| <= c.readsInFlight[0].Count()
    requires c.readsInFlight[0].Header? && |more| == HEADER_SIZE ==> HEADER_SIZE <= PacketSize(more)
    ensures WellFormed(c.stream + more) <==>
            && WellFormed(c.stream)
            && (c.readsInFlight[0].Header? && |more| == HEADER_SIZE ==> PacketSize(more) <= PACKET_LIMIT)
  {
    if c.readsInFlight[0].Body? {
      GrowBody(c.received, c.packet[..HEADER_SIZE], c.stream, more);
    } else {
      assert c.packet[..0] == [];
      GrowHeader(c.received, c.stream, more);
    }
  }

  lemma GrowBody(ps: seq<seq<byte>>, head: seq<byte>, stream: seq<byte>, more: seq<byte>)
    requires (forall p <- ps :: IsPacket(p)) && stream == Flatten(ps) + head
    requires |head| == HEADER_SIZE <= PacketSize(head) && HEADER_SIZE + |more| <= PacketSize(head)
    ensures WellFormed(stream + more) <==> WellFormed(stream)
  {
    assert stream + more == Flatten(ps) + (head + more);
    WellFormedFlattenAnd(ps, head);
    WellFormedFlattenAnd(ps, head + more);
    WellFormedBody(head, more);
  }

  lemma GrowHeader(ps: seq<seq<byte>>, stream: seq<byte>, more: seq<byte>)
    requires (forall p <- ps :: IsPacket(p)) && stream == Flatten(ps) + []
    requires |more| <= HEADER_SIZE && (|more| == HEADER_SIZE ==> HEADER_SIZE <= PacketSize(more))
    ensures WellFormed(stream + more) <==>
            WellFormed(stream) && (|more| == HEADER_SIZE ==> PacketSize(more) <= PACKET_LIMIT)
  {
    assert stream == Flatten(ps);
    WellFormedFlattenAnd(ps, more);
    WellFormedHeader([], more);
    assert [] + more == more;
  }

  lemma WellFormedHeader(none: seq<byte>, more: seq<byte>)
    requires none == [] && |more| <= HEADER_SIZE && (|more| == HEADER_SIZE ==> HEADER_SIZE <= PacketSize(more))
    ensures WellFormed(none)
    ensures WellFormed(none + more) <==> (|more| == HEADER_SIZE ==> PacketSize(more) <= PACKET_LIMIT)
  {
    assert none + more == more;
    if |more| == HEADER_SIZE {
      WellFormedBody(more, []);
    }
  }

  lemma NextHeader(ps: seq<seq<byte>>, rest: seq<byte>)
    requires forall p <- ps :: IsPacket(p)
    requires NoTinySize(Flatten(ps) + rest) && |rest| >= HEADER_SIZE
    ensures PacketSize(rest[..HEADER_SIZE]) >= HEADER_SIZE
  {
    DrainFlatten(ps);
    NoTinySizeAfter(Flatten(ps), rest);
    assert [] + rest == rest;
    SizeOfHead(rest[..HEADER_SIZE], rest[HEADER_SIZE..]);
    assert rest[..HEADER_SIZE] + rest[HEADER_SIZE..] == rest;
  }

  /** One completed read while a connection works through `bytes`. */
  method ServeRead(server: SocketServer, c: Connection, bytes: seq<byte>, i: nat) returns (next: nat)
    requires server.Valid() && c in server.announced && |c.readsInFlight| == 1
    requires i + c.readsInFlight[0].Count() <= |bytes|
    requires NoTinySize(bytes) && c.stream == bytes[..i]
    requires c.isConnected <==> WellFormed(c.stream)
    modifies server`connectionList, c, c.packet
    ensures server.Valid() && |c.readsInFlight| == 1 && c.InStep()
    ensures next == i + old(c.readsInFlight[0].Count()) <= |bytes| && c.stream == bytes[..next]
    ensures c.isConnected <==> WellFormed(c.stream)
    ensures old(c.readsInFlight[0]).Body? ==> c.readsInFlight[0].Header?
  {
    assert server.Member(c);
    next := i + c.readsInFlight[0].Count();
    var more := bytes[i..next];
    if c.readsInFlight[0].Header? {
      assert c.packet[..0] == [];
      assert c.stream == Flatten(c.received);
      assert bytes == Flatten(c.received) + bytes[i..];
      NextHeader(c.received, bytes[i..]);
      assert bytes[i..][..HEADER_SIZE] == more;
    }
    GrowWellFormed(c, more);
    assert bytes[..i] + more == bytes[..next];
    server.CompleteRead(c, more);
    assert server.Member(c);
  }

  /** When too few bytes are left for the next read. */
  lemma ServedAll(c: Connection, bytes: seq<byte>, i: nat)
    requires c.InStep() && c.readsInFlight != [] && i <= |bytes| < i + c.readsInFlight[0].Count()
    requires c.stream == bytes[..i]
    ensures c.received == Drain(bytes).packets
    ensures WellFormed(bytes) <==> WellFormed(c.stream)
  {
    assert bytes[..i] + bytes[i..] == bytes;
    StarvedAgreesWithReader(c, bytes[i..]);
    GrowWellFormed(c, bytes[i..]);
  }

  /** A connection that receives `bytes` and no error hands on what draining them gives, and
      stays announced exactly if all size fields are within the limit.  (An oversized packet
      disconnects, but is still read: 65535 bytes fit the connection's buffer.) */
  method ServeStream(bytes: seq<byte>) returns (packets: seq<seq<byte>>, connected: bool)
    requires NoTinySize(bytes)
    ensures packets == Drain(bytes).packets
    ensures connected <==> WellFormed(bytes)
  {
    var server := new SocketServer();
    var c := server.HandleAccept(false);
    var i := 0;
    while i + c.readsInFlight[0].Count() <= |bytes|
      invariant fresh(server) && fresh(c) && fresh(c.packet)
      invariant server.Valid() && c in server.announced && |c.readsInFlight| == 1 && c.InStep()
      invariant i <= |bytes| && c.stream == bytes[..i]
      invariant c.isConnected <==> WellFormed(c.stream)
      decreases |bytes| - i, c.readsInFlight[0].Body?
    {
      i := ServeRead(server, c, bytes, i);
    }
    ServedAll(c, bytes, i);
    return c.received, c.isConnected;
  }

  lemma {:induction false} WellFormedIsNotTiny(s: seq<byte>)
    requires WellFormed(s)
    ensures NoTinySize(s)
  {
    if |s| >= HEADER_SIZE && PacketSize(s) <= |s| {
      WellFormedIsNotTiny(s[PacketSize(s)..]);
    }
  }

  /** On any prefix of encoded messages within the limit, a connection hands on exactly the messages
      that have arrived whole, as a drained packet reader does, and stays announced. */
  method ServeMessages(bytes: seq<byte>, ghost ms: seq<Message>) returns (packets: seq<seq<byte>>, connected: bool)
    requires (forall m :: m in ms ==> |m.payload| + 3 <= 32768) && bytes <= Encode(ms)
    ensures packets == Frames(ms[..WholeFrames(ms, |bytes|)]) && connected
    ensures bytes == Encode(ms) ==> packets == Frames(ms)
  {
    EncodedIsWellFormed(ms, bytes);
    WellFormedIsNotTiny(bytes);
    DrainOfPrefix(ms, bytes);
    WholeFramesAll(ms);
    assert ms[..|ms|] == ms;
    packets, connected := ServeStream(bytes);
  }
}
